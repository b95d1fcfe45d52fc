/** Semantic diffs of device facts: whether the fixed lists of compared fields cover everything the
    canonical form, and hence its hash, keeps. */
module Diffs {
  import opened Activity
  import opened Canonical

  // ---- Snapshots ----------------------------------------------------------------------

  type Object = map<string, Field>

  /** A missing field reads like a null one. */
  function Get(o: Object, name: string): Field { if name in o then o[name] else Null }

  function Pick(o: Object, names: seq<string>): Object { map n | n in names :: Get(o, n) }

  /** The values of the named fields, in that order. */
  function Values(o: Object, names: seq<string>): Row {
    if names == [] then [] else [Get(o, names[0])] + Values(o, names[1..])
  }

  function Rows(items: seq<Object>, names: seq<string>): seq<Row> {
    Mapped((o: Object) => Values(o, names), items)
  }

  function StableSorted(items: seq<Object>, names: seq<string>): seq<Row> { SortedRows(Rows(items, names)) }

  datatype Profile = BASELINE | INVENTORY | SESSION | NETWORK

  /** The sections of a snapshot that some canonical form reads. */
  datatype Snapshot = Snapshot(
    profile: Profile, system: Object, hardware: Object, memory: Object, modules: seq<Object>,
    storage: seq<Object>, interfaces: seq<Object>, software: seq<Object>)

  // ---- Canonical forms ----------------------------------------------------------------

  const STORAGE: seq<string> := ["stable_key", "model", "size_bytes"]
  const INTERFACES: seq<string> := ["stable_key", "name", "link_type"]
  const SOFTWARE: seq<string> := ["name", "source", "version"]

  datatype Value = Fields(Object) | Items(seq<Row>) | Memory(total: Object, modules: seq<Row>)

  function CanonicalBaseline(s: Snapshot): map<string, Value> {
    map["system" := Fields(Pick(s.system, ["architecture", "distribution", "platform"])),
        "hardware" := Fields(Pick(s.hardware, ["cpu_model", "manufacturer", "memory_bytes", "model"])),
        "storage" := Items(StableSorted(s.storage, STORAGE)),
        "interfaces" := Items(StableSorted(s.interfaces, INTERFACES)),
        "software" := Items(StableSorted(s.software, SOFTWARE))]
  }

  function PhysicalInventory(s: Snapshot): map<string, Value> {
    map["hardware" := Fields(s.hardware),
        "memory" := Memory(Pick(s.memory, ["total_bytes", "memory_type"]),
                           StableSorted(s.modules, ["slot", "serial", "capacity_bytes", "speed_mt_s", "memory_type"])),
        "storage" := Items(StableSorted(s.storage, ["stable_key", "model", "serial", "size_bytes", "media_type", "bus_type"])),
        "interfaces" := Items(StableSorted(s.interfaces, ["stable_key", "mac", "name", "link_type", "operational_state"]))]
  }

  /** System and hardware are kept whole. */
  function CanonicalInventory(s: Snapshot): map<string, Value> { PhysicalInventory(s)["system" := Fields(s.system)] }

  predicate Comparable(s: Snapshot) { s.profile == BASELINE || s.profile == INVENTORY }

  function Canonicalized(s: Snapshot): map<string, Value>
    requires Comparable(s)
  {
    if s.profile == BASELINE then CanonicalBaseline(s) else CanonicalInventory(s)
  }

  // ---- The diff -----------------------------------------------------------------------

  datatype Code =
    | PLATFORM_CHANGED | HARDWARE_CHANGED | STORAGE_CHANGED | NETWORK_CHANGED | SOFTWARE_CHANGED | AGENT_CHANGED
    | HOSTNAME_CHANGED | OS_CHANGED | RAM_CHANGED | NETWORK_ADAPTER_CHANGED

  const CHANGE_FIELDS: seq<(Code, string)> := [
    (PLATFORM_CHANGED, "system"), (HARDWARE_CHANGED, "hardware"), (STORAGE_CHANGED, "storage"),
    (NETWORK_CHANGED, "interfaces"), (SOFTWARE_CHANGED, "software"), (AGENT_CHANGED, "agent")]

  const INVENTORY_CHANGE_FIELDS: seq<(Code, string)> := [
    (HARDWARE_CHANGED, "hardware"), (RAM_CHANGED, "memory"), (STORAGE_CHANGED, "storage"),
    (NETWORK_ADAPTER_CHANGED, "interfaces")]

  const OS_FIELDS: seq<string> := ["platform", "os_name", "os_version", "os_build", "architecture"]

  function Section(c: map<string, Value>, name: string): Option<Value> { if name in c then Some(c[name]) else None }

  function FieldChanges(before: map<string, Value>, after: map<string, Value>, fields: seq<(Code, string)>): seq<Code> {
    if fields == [] then []
    else
      var (code, name) := fields[0];
      (if Section(before, name) != Section(after, name) then [code] else []) + FieldChanges(before, after, fields[1..])
  }

  function SystemChanges(before: Object, after: Object): seq<Code> {
    (if Get(before, "hostname") != Get(after, "hostname") then [HOSTNAME_CHANGED] else [])
    + (if Values(before, OS_FIELDS) != Values(after, OS_FIELDS) then [OS_CHANGED] else [])
  }

  /** The change codes between two snapshots of one comparable profile; other pairs are refused. */
  function CompareSnapshots(before: Snapshot, after: Snapshot): Option<seq<Code>> {
    if before.profile != after.profile || !Comparable(before) then None
    else
      var (b, a) := (Canonicalized(before), Canonicalized(after));
      if before.profile == BASELINE then Some(FieldChanges(b, a, CHANGE_FIELDS))
      else Some(SystemChanges(before.system, after.system) + FieldChanges(b, a, INVENTORY_CHANGE_FIELDS))
  }

  // ---- Coverage -----------------------------------------------------------------------

  lemma {:induction false} NoFieldChange(before: map<string, Value>, after: map<string, Value>, fields: seq<(Code, string)>)
    ensures FieldChanges(before, after, fields) == [] <==>
      forall i | 0 <= i < |fields| :: Section(before, fields[i].1) == Section(after, fields[i].1)
  {
    if fields != [] {
      NoFieldChange(before, after, fields[1..]);
      if FieldChanges(before, after, fields) == [] {
        forall i | 0 <= i < |fields| ensures Section(before, fields[i].1) == Section(after, fields[i].1) {
          if i > 0 { assert fields[i] == fields[1..][i - 1]; }
        }
      }
    }
  }

  lemma SameSections(before: map<string, Value>, after: map<string, Value>)
    requires before.Keys == after.Keys && forall n | n in before :: Section(before, n) == Section(after, n)
    ensures before == after
  {
    forall n | n in before ensures before[n] == after[n] {
      assert Section(before, n) == Section(after, n);
    }
  }

  /** A section the diff looks at. */
  ghost predicate Listed(fields: seq<(Code, string)>, name: string) {
    exists i :: 0 <= i < |fields| && fields[i].1 == name
  }

  lemma UnchangedSection(before: map<string, Value>, after: map<string, Value>, fields: seq<(Code, string)>, name: string)
    requires FieldChanges(before, after, fields) == [] && Listed(fields, name)
    ensures Section(before, name) == Section(after, name)
  {
    NoFieldChange(before, after, fields);
  }

  lemma BaselineSectionsListed(name: string)
    requires name in {"system", "hardware", "storage", "interfaces", "software"}
    ensures Listed(CHANGE_FIELDS, name)
  {
    assert CHANGE_FIELDS[0].1 == "system" && CHANGE_FIELDS[1].1 == "hardware" && CHANGE_FIELDS[2].1 == "storage";
    assert CHANGE_FIELDS[3].1 == "interfaces" && CHANGE_FIELDS[4].1 == "software";
  }

  lemma InventorySectionsListed(name: string)
    requires name in {"hardware", "memory", "storage", "interfaces"}
    ensures Listed(INVENTORY_CHANGE_FIELDS, name)
  {
    assert INVENTORY_CHANGE_FIELDS[0].1 == "hardware" && INVENTORY_CHANGE_FIELDS[1].1 == "memory";
    assert INVENTORY_CHANGE_FIELDS[2].1 == "storage" && INVENTORY_CHANGE_FIELDS[3].1 == "interfaces";
  }

  lemma BaselineSectionsUnchanged(b: map<string, Value>, a: map<string, Value>)
    requires b.Keys == a.Keys == {"system", "hardware", "storage", "interfaces", "software"}
    ensures FieldChanges(b, a, CHANGE_FIELDS) == [] <==> b == a
  {
    NoFieldChange(b, a, CHANGE_FIELDS);
    if FieldChanges(b, a, CHANGE_FIELDS) == [] {
      forall n | n in b ensures Section(b, n) == Section(a, n) {
        BaselineSectionsListed(n);
        UnchangedSection(b, a, CHANGE_FIELDS, n);
      }
      SameSections(b, a);
    }
  }

  lemma BaselineParts(s: Snapshot)
    requires s.profile == BASELINE
    ensures Canonicalized(s).Keys == {"system", "hardware", "storage", "interfaces", "software"}
  {
  }

  /** A baseline diff looks at every section its canonical form keeps. */
  lemma BaselineDiffEmptyExactlyWhenSame(before: Snapshot, after: Snapshot)
    requires before.profile == after.profile == BASELINE
    ensures CompareSnapshots(before, after) == Some([]) <==> Canonicalized(before) == Canonicalized(after)
  {
    BaselineParts(before);
    BaselineParts(after);
    BaselineSectionsUnchanged(Canonicalized(before), Canonicalized(after));
  }

  /** The systems agree on every field the diff looks at. */
  predicate SystemAgrees(before: Object, after: Object) {
    Get(before, "hostname") == Get(after, "hostname") && Values(before, OS_FIELDS) == Values(after, OS_FIELDS)
  }

  /** Everything but the system is listed. */
  lemma InventorySectionsUnchanged(b: map<string, Value>, a: map<string, Value>)
    requires b.Keys == a.Keys == {"system", "hardware", "memory", "storage", "interfaces"}
    ensures FieldChanges(b, a, INVENTORY_CHANGE_FIELDS) == [] <==> b == a["system" := b["system"]]
  {
    var a' := a["system" := b["system"]];
    if FieldChanges(b, a, INVENTORY_CHANGE_FIELDS) == [] {
      forall n | n in b ensures Section(b, n) == Section(a', n) {
        if n != "system" {
          InventorySectionsListed(n);
          UnchangedSection(b, a, INVENTORY_CHANGE_FIELDS, n);
        }
      }
      SameSections(b, a');
    }
    if b == a' { NothingButSystem(b, a); }
  }

  lemma NothingButSystem(b: map<string, Value>, a: map<string, Value>)
    requires "system" in b && "system" in a && b == a["system" := b["system"]]
    ensures FieldChanges(b, a, INVENTORY_CHANGE_FIELDS) == []
  {
    forall i | 0 <= i < |INVENTORY_CHANGE_FIELDS|
      ensures Section(b, INVENTORY_CHANGE_FIELDS[i].1) == Section(a, INVENTORY_CHANGE_FIELDS[i].1)
    {
      assert INVENTORY_CHANGE_FIELDS[i].1 != "system";
    }
    NoFieldChange(b, a, INVENTORY_CHANGE_FIELDS);
  }

  lemma InventoryParts(s: Snapshot, system: Object)
    requires s.profile == INVENTORY
    ensures var c := Canonicalized(s);
      && c.Keys == {"system", "hardware", "memory", "storage", "interfaces"} && c["system"] == Fields(s.system)
      && Canonicalized(s.(system := system)) == c["system" := Fields(system)]
  {
    assert PhysicalInventory(s.(system := system)) == PhysicalInventory(s);
    Overwritten(PhysicalInventory(s), "system", Fields(s.system), Fields(system));
    assert PhysicalInventory(s).Keys == {"hardware", "memory", "storage", "interfaces"};
  }

  lemma Overwritten<K, V>(m: map<K, V>, k: K, v: V, w: V)
    ensures m[k := v][k := w] == m[k := w]
  {
  }

  lemma InventoryDiffEmpty(before: Snapshot, after: Snapshot)
    requires before.profile == after.profile == INVENTORY
    ensures CompareSnapshots(before, after) == Some([]) <==>
      SystemAgrees(before.system, after.system) && Canonicalized(before) == Canonicalized(after.(system := before.system))
  {
    InventoryParts(before, before.system);
    InventoryParts(after, before.system);
    InventorySectionsUnchanged(Canonicalized(before), Canonicalized(after));
  }

  /** An inventory diff misses a change of the canonical form exactly when the systems differ only
      in fields outside its list (or in a missing against a null one). */
  lemma InventoryDiffMissesExactly(before: Snapshot, after: Snapshot)
    requires before.profile == after.profile == INVENTORY
    ensures (CompareSnapshots(before, after) == Some([]) <==> Canonicalized(before) == Canonicalized(after))
      <==> !(before.system != after.system && SystemAgrees(before.system, after.system)
             && Canonicalized(before) == Canonicalized(after.(system := before.system)))
  {
    InventoryDiffEmpty(before, after);
    var (b, a) := (Canonicalized(before), Canonicalized(after));
    assert b["system"] == Fields(before.system) && a["system"] == Fields(after.system);
    if before.system == after.system { assert after.(system := before.system) == after; }
  }

  // ---- Contract-shaped snapshots ------------------------------------------------------

  /** The fields the inventory contract gives a system. */
  const SYSTEM_FIELDS: seq<string> := ["hostname", "platform", "os_name", "os_version", "os_build", "architecture"]

  predicate SystemShaped(o: Object) {
    (forall n :: n in o.Keys ==> n in SYSTEM_FIELDS) && (forall n :: n in SYSTEM_FIELDS ==> n in o.Keys)
  }

  lemma {:induction false} SameValues(before: Object, after: Object, names: seq<string>)
    ensures Values(before, names) == Values(after, names) <==> forall n | n in names :: Get(before, n) == Get(after, n)
  {
    if names != [] {
      SameValues(before, after, names[1..]);
      assert names == [names[0]] + names[1..];
      assert Values(before, names)[1..] == Values(before, names[1..]) && Values(after, names)[1..] == Values(after, names[1..]);
    }
  }

  /** Hostname and the five operating-system fields are all a contract-shaped system has. */
  lemma SystemFieldsCovered(before: Object, after: Object)
    requires SystemShaped(before) && SystemShaped(after)
    ensures SystemAgrees(before, after) <==> before == after
  {
    SameValues(before, after, OS_FIELDS);
    if SystemAgrees(before, after) {
      forall n | n in before.Keys ensures n in after.Keys && before[n] == after[n] {
        assert n in SYSTEM_FIELDS;
        assert n == "hostname" || n in OS_FIELDS;
        assert Get(before, n) == Get(after, n);
      }
      forall n | n in after.Keys ensures n in before.Keys {
        assert n in SYSTEM_FIELDS;
      }
    }
  }

  predicate ContractShaped(s: Snapshot) { s.profile == INVENTORY ==> SystemShaped(s.system) }

  /** On contract-shaped snapshots of one profile the diff is empty exactly when the canonical
      facts, and hence the hashes, are equal; anything else is refused exactly as it should be. */
  lemma DiffEmptyExactlyWhenSame(before: Snapshot, after: Snapshot)
    requires ContractShaped(before) && ContractShaped(after)
    ensures CompareSnapshots(before, after).None? <==> before.profile != after.profile || !Comparable(before)
    ensures before.profile == after.profile && Comparable(before) ==>
      (CompareSnapshots(before, after) == Some([]) <==> Canonicalized(before) == Canonicalized(after))
  {
    if before.profile == after.profile == BASELINE {
      BaselineDiffEmptyExactlyWhenSame(before, after);
    } else if before.profile == after.profile == INVENTORY {
      InventoryDiffMissesExactly(before, after);
      SystemFieldsCovered(before.system, after.system);
    }
  }

  // ---- What is stored -----------------------------------------------------------------

  /** What one validated collection leaves: a pointer to the latest snapshot, or a new snapshot
      with its diff against the latest one of the same device and profile. */
  datatype Ingested = PointsToLatest | Stored(diff: Option<seq<Code>>)

  function IngestFacts(latest: Option<Snapshot>, s: Snapshot): Ingested
    requires Comparable(s) && (latest.Some? ==> latest.value.profile == s.profile)
  {
    if latest == None then Stored(None)
    else if Canonicalized(latest.value) == Canonicalized(s) then PointsToLatest
    else Stored(CompareSnapshots(latest.value, s))
  }

  /** Every stored diff names a change, and every change of the canonical facts is stored. */
  lemma StoredDiffsNameAChange(latest: Snapshot, s: Snapshot)
    requires latest.profile == s.profile && Comparable(s) && ContractShaped(latest) && ContractShaped(s)
    ensures var i := IngestFacts(Some(latest), s);
      && (i.PointsToLatest? <==> CompareSnapshots(latest, s) == Some([]))
      && (i.Stored? ==> i.diff.Some? && i.diff.value != [])
  {
    DiffEmptyExactlyWhenSame(latest, s);
  }

  // ---- Reordering ---------------------------------------------------------------------

  /** A contract-shaped list of a baseline: typed columns, nothing missing. */
  ghost predicate FullRows(items: seq<Object>, names: seq<string>) {
    Typed(Rows(items, names)) && forall r: Row | r in Rows(items, names) :: Complete(r)
  }

  lemma SameSorted(items: seq<Object>, others: seq<Object>, names: seq<string>)
    requires FullRows(items, names) && multiset(items) == multiset(others)
    ensures StableSorted(items, names) == StableSorted(others, names)
  {
    MappedPermutation((o: Object) => Values(o, names), items, others);
    CompleteRowsIgnoreOrder(Rows(items, names));
    assert multiset(Rows(others, names)) == multiset(Rows(items, names));
  }

  lemma SameBaseline(s: Snapshot, t: Snapshot)
    requires s.profile == t.profile == BASELINE && s.system == t.system && s.hardware == t.hardware
    requires StableSorted(s.storage, STORAGE) == StableSorted(t.storage, STORAGE)
    requires StableSorted(s.interfaces, INTERFACES) == StableSorted(t.interfaces, INTERFACES)
    requires StableSorted(s.software, SOFTWARE) == StableSorted(t.software, SOFTWARE)
    ensures Canonicalized(s) == Canonicalized(t)
  {
  }

  /** Reordering the lists of a baseline never produces a change. */
  lemma ReorderedBaselineUnchanged(s: Snapshot, t: Snapshot)
    requires s.profile == t.profile == BASELINE && s.system == t.system && s.hardware == t.hardware
    requires FullRows(s.storage, STORAGE) && FullRows(s.interfaces, INTERFACES) && FullRows(s.software, SOFTWARE)
    requires multiset(s.storage) == multiset(t.storage) && multiset(s.interfaces) == multiset(t.interfaces)
    requires multiset(s.software) == multiset(t.software)
    ensures CompareSnapshots(s, t) == Some([])
  {
    SameSorted(s.storage, t.storage, STORAGE);
    SameSorted(s.interfaces, t.interfaces, INTERFACES);
    SameSorted(s.software, t.software, SOFTWARE);
    SameBaseline(s, t);
    BaselineDiffEmptyExactlyWhenSame(s, t);
  }

  // ---- What each form and each code depends on ----------------------------------------

  ghost predicate SameFields(o: Object, q: Object, names: set<string>) { forall n | n in names :: Get(o, n) == Get(q, n) }

  ghost predicate SameList(items: seq<Object>, others: seq<Object>, names: seq<string>) {
    StableSorted(items, names) == StableSorted(others, names)
  }

  lemma PickSame(o: Object, q: Object, names: seq<string>)
    ensures Pick(o, names) == Pick(q, names) <==> forall n | n in names :: Get(o, n) == Get(q, n)
  {
    if Pick(o, names) == Pick(q, names) {
      forall n | n in names ensures Get(o, n) == Get(q, n) {
        assert Pick(o, names)[n] == Pick(q, names)[n];
      }
    }
  }

  /** A baseline's canonical form says exactly these things. */
  ghost predicate SameBaselineFacts(s: Snapshot, t: Snapshot) {
    && SameFields(s.system, t.system, {"architecture", "distribution", "platform"})
    && SameFields(s.hardware, t.hardware, {"cpu_model", "manufacturer", "memory_bytes", "model"})
    && SameList(s.storage, t.storage, ["stable_key", "model", "size_bytes"])
    && SameList(s.interfaces, t.interfaces, ["stable_key", "name", "link_type"])
    && SameList(s.software, t.software, ["name", "source", "version"])
  }

  lemma BaselineSystem(s: Snapshot, t: Snapshot)
    ensures CanonicalBaseline(s)["system"] == CanonicalBaseline(t)["system"] <==>
      SameFields(s.system, t.system, {"architecture", "distribution", "platform"})
  {
    PickSame(s.system, t.system, ["architecture", "distribution", "platform"]);
  }

  lemma BaselineHardware(s: Snapshot, t: Snapshot)
    ensures CanonicalBaseline(s)["hardware"] == CanonicalBaseline(t)["hardware"] <==>
      SameFields(s.hardware, t.hardware, {"cpu_model", "manufacturer", "memory_bytes", "model"})
  {
    PickSame(s.hardware, t.hardware, ["cpu_model", "manufacturer", "memory_bytes", "model"]);
  }

  lemma BaselineLists(s: Snapshot, t: Snapshot)
    ensures CanonicalBaseline(s)["storage"] == CanonicalBaseline(t)["storage"] <==>
      SameList(s.storage, t.storage, ["stable_key", "model", "size_bytes"])
    ensures CanonicalBaseline(s)["interfaces"] == CanonicalBaseline(t)["interfaces"] <==>
      SameList(s.interfaces, t.interfaces, ["stable_key", "name", "link_type"])
    ensures CanonicalBaseline(s)["software"] == CanonicalBaseline(t)["software"] <==>
      SameList(s.software, t.software, ["name", "source", "version"])
  {
  }

  lemma FiveSections(c: map<string, Value>, e: map<string, Value>, names: set<string>)
    requires c.Keys == e.Keys == names
    ensures c == e <==> forall n | n in names :: c[n] == e[n]
  {
  }

  lemma BaselineFormExactly(s: Snapshot, t: Snapshot)
    requires s.profile == t.profile == BASELINE
    ensures Canonicalized(s) == Canonicalized(t) <==> SameBaselineFacts(s, t)
  {
    BaselineParts(s);
    BaselineParts(t);
    BaselineSystem(s, t);
    BaselineHardware(s, t);
    BaselineLists(s, t);
    FiveSections(Canonicalized(s), Canonicalized(t), {"system", "hardware", "storage", "interfaces", "software"});
  }

  /** An inventory's, exactly these: system and hardware whole. */
  ghost predicate SameInventoryFacts(s: Snapshot, t: Snapshot) {
    && s.system == t.system && s.hardware == t.hardware && SameMemory(s, t)
    && SameList(s.storage, t.storage, ["stable_key", "model", "serial", "size_bytes", "media_type", "bus_type"])
    && SameList(s.interfaces, t.interfaces, ["stable_key", "mac", "name", "link_type", "operational_state"])
  }

  ghost predicate SameMemory(s: Snapshot, t: Snapshot) {
    && SameFields(s.memory, t.memory, {"total_bytes", "memory_type"})
    && SameList(s.modules, t.modules, ["slot", "serial", "capacity_bytes", "speed_mt_s", "memory_type"])
  }

  lemma InventoryMemory(s: Snapshot, t: Snapshot)
    ensures PhysicalInventory(s)["memory"] == PhysicalInventory(t)["memory"] <==> SameMemory(s, t)
  {
    PickSame(s.memory, t.memory, ["total_bytes", "memory_type"]);
  }

  lemma InventoryLists(s: Snapshot, t: Snapshot)
    ensures PhysicalInventory(s)["storage"] == PhysicalInventory(t)["storage"] <==>
      SameList(s.storage, t.storage, ["stable_key", "model", "serial", "size_bytes", "media_type", "bus_type"])
    ensures PhysicalInventory(s)["interfaces"] == PhysicalInventory(t)["interfaces"] <==>
      SameList(s.interfaces, t.interfaces, ["stable_key", "mac", "name", "link_type", "operational_state"])
    ensures PhysicalInventory(s)["hardware"] == PhysicalInventory(t)["hardware"] <==> s.hardware == t.hardware
  {
  }

  lemma InventorySection(s: Snapshot, name: string)
    requires s.profile == INVENTORY && name in {"hardware", "memory", "storage", "interfaces"}
    ensures name in Canonicalized(s) && name in PhysicalInventory(s) && Canonicalized(s)[name] == PhysicalInventory(s)[name]
  {
  }

  lemma InventoryFormExactly(s: Snapshot, t: Snapshot)
    requires s.profile == t.profile == INVENTORY
    ensures Canonicalized(s) == Canonicalized(t) <==> SameInventoryFacts(s, t)
  {
    InventoryParts(s, s.system);
    InventoryParts(t, t.system);
    InventoryMemory(s, t);
    InventoryLists(s, t);
    forall n | n in {"hardware", "memory", "storage", "interfaces"}
      ensures Canonicalized(s)[n] == PhysicalInventory(s)[n] && Canonicalized(t)[n] == PhysicalInventory(t)[n]
    {
      InventorySection(s, n);
      InventorySection(t, n);
    }
    FiveSections(Canonicalized(s), Canonicalized(t), {"system", "hardware", "memory", "storage", "interfaces"});
  }

  lemma {:induction false} CodeExactly(b: map<string, Value>, a: map<string, Value>, fields: seq<(Code, string)>, c: Code)
    ensures c in FieldChanges(b, a, fields) <==>
      exists i :: 0 <= i < |fields| && fields[i].0 == c && Section(b, fields[i].1) != Section(a, fields[i].1)
  {
    if fields != [] {
      CodeExactly(b, a, fields[1..], c);
      if exists i :: 0 <= i < |fields| && fields[i].0 == c && Section(b, fields[i].1) != Section(a, fields[i].1) {
        var i :| 0 <= i < |fields| && fields[i].0 == c && Section(b, fields[i].1) != Section(a, fields[i].1);
        if i > 0 { assert fields[1..][i - 1] == fields[i]; }
      }
      if c in FieldChanges(b, a, fields[1..]) {
        var i :| 0 <= i < |fields[1..]| && fields[1..][i].0 == c && Section(b, fields[1..][i].1) != Section(a, fields[1..][i].1);
        assert fields[i + 1] == fields[1..][i];
      }
    }
  }

  lemma OnlySection(b: map<string, Value>, a: map<string, Value>, fields: seq<(Code, string)>, n: nat)
    requires n < |fields| && forall i | 0 <= i < |fields| && fields[i].0 == fields[n].0 :: i == n
    ensures fields[n].0 in FieldChanges(b, a, fields) <==> Section(b, fields[n].1) != Section(a, fields[n].1)
  {
    CodeExactly(b, a, fields, fields[n].0);
  }

  /** Each code of a baseline diff is listed exactly when its own section changed. */
  lemma BaselineCodesExactly(s: Snapshot, t: Snapshot)
    requires s.profile == t.profile == BASELINE
    ensures var d := CompareSnapshots(s, t).value;
      && (PLATFORM_CHANGED in d <==> !SameFields(s.system, t.system, {"architecture", "distribution", "platform"}))
      && (HARDWARE_CHANGED in d <==> !SameFields(s.hardware, t.hardware, {"cpu_model", "manufacturer", "memory_bytes", "model"}))
      && (STORAGE_CHANGED in d <==> !SameList(s.storage, t.storage, ["stable_key", "model", "size_bytes"]))
      && (NETWORK_CHANGED in d <==> !SameList(s.interfaces, t.interfaces, ["stable_key", "name", "link_type"]))
      && (SOFTWARE_CHANGED in d <==> !SameList(s.software, t.software, ["name", "source", "version"]))
      && AGENT_CHANGED !in d
  {
    var (b, a) := (Canonicalized(s), Canonicalized(t));
    BaselineParts(s);
    BaselineParts(t);
    BaselineSystem(s, t);
    BaselineHardware(s, t);
    BaselineLists(s, t);
    BaselineCodes(b, a);
  }

  lemma BaselineCodes(b: map<string, Value>, a: map<string, Value>)
    requires b.Keys == a.Keys == {"system", "hardware", "storage", "interfaces", "software"}
    ensures var d := FieldChanges(b, a, CHANGE_FIELDS);
      && (PLATFORM_CHANGED in d <==> b["system"] != a["system"]) && (HARDWARE_CHANGED in d <==> b["hardware"] != a["hardware"])
      && (STORAGE_CHANGED in d <==> b["storage"] != a["storage"]) && (NETWORK_CHANGED in d <==> b["interfaces"] != a["interfaces"])
      && (SOFTWARE_CHANGED in d <==> b["software"] != a["software"]) && AGENT_CHANGED !in d
  {
    forall n | 0 <= n < 6
      ensures CHANGE_FIELDS[n].0 in FieldChanges(b, a, CHANGE_FIELDS) <==> Section(b, CHANGE_FIELDS[n].1) != Section(a, CHANGE_FIELDS[n].1)
    {
      OnlySection(b, a, CHANGE_FIELDS, n);
    }
    assert CHANGE_FIELDS[0] == (PLATFORM_CHANGED, "system") && CHANGE_FIELDS[1] == (HARDWARE_CHANGED, "hardware");
    assert CHANGE_FIELDS[2] == (STORAGE_CHANGED, "storage") && CHANGE_FIELDS[3] == (NETWORK_CHANGED, "interfaces");
    assert CHANGE_FIELDS[4] == (SOFTWARE_CHANGED, "software") && CHANGE_FIELDS[5] == (AGENT_CHANGED, "agent");
  }

  lemma InventoryCodes(b: map<string, Value>, a: map<string, Value>)
    requires b.Keys == a.Keys == {"system", "hardware", "memory", "storage", "interfaces"}
    ensures var d := FieldChanges(b, a, INVENTORY_CHANGE_FIELDS);
      && (HARDWARE_CHANGED in d <==> b["hardware"] != a["hardware"]) && (RAM_CHANGED in d <==> b["memory"] != a["memory"])
      && (STORAGE_CHANGED in d <==> b["storage"] != a["storage"]) && (NETWORK_ADAPTER_CHANGED in d <==> b["interfaces"] != a["interfaces"])
      && HOSTNAME_CHANGED !in d && OS_CHANGED !in d
  {
    forall n | 0 <= n < 4
      ensures INVENTORY_CHANGE_FIELDS[n].0 in FieldChanges(b, a, INVENTORY_CHANGE_FIELDS)
         <==> Section(b, INVENTORY_CHANGE_FIELDS[n].1) != Section(a, INVENTORY_CHANGE_FIELDS[n].1)
    {
      OnlySection(b, a, INVENTORY_CHANGE_FIELDS, n);
    }
    assert INVENTORY_CHANGE_FIELDS[0] == (HARDWARE_CHANGED, "hardware") && INVENTORY_CHANGE_FIELDS[1] == (RAM_CHANGED, "memory");
    assert INVENTORY_CHANGE_FIELDS[2] == (STORAGE_CHANGED, "storage") && INVENTORY_CHANGE_FIELDS[3] == (NETWORK_ADAPTER_CHANGED, "interfaces");
    CodeExactly(b, a, INVENTORY_CHANGE_FIELDS, HOSTNAME_CHANGED);
    CodeExactly(b, a, INVENTORY_CHANGE_FIELDS, OS_CHANGED);
  }

  /** Each code of an inventory diff, likewise. */
  lemma InventoryCodesExactly(s: Snapshot, t: Snapshot)
    requires s.profile == t.profile == INVENTORY
    ensures var d := CompareSnapshots(s, t).value;
      && (HOSTNAME_CHANGED in d <==> Get(s.system, "hostname") != Get(t.system, "hostname"))
      && (OS_CHANGED in d <==> !SameFields(s.system, t.system, {"platform", "os_name", "os_version", "os_build", "architecture"}))
      && (HARDWARE_CHANGED in d <==> s.hardware != t.hardware) && (RAM_CHANGED in d <==> !SameMemory(s, t))
      && (STORAGE_CHANGED in d <==> !SameList(s.storage, t.storage, ["stable_key", "model", "serial", "size_bytes", "media_type", "bus_type"]))
      && (NETWORK_ADAPTER_CHANGED in d <==>
            !SameList(s.interfaces, t.interfaces, ["stable_key", "mac", "name", "link_type", "operational_state"]))
  {
    InventoryParts(s, s.system);
    InventoryParts(t, t.system);
    InventoryMemory(s, t);
    InventoryLists(s, t);
    forall n | n in {"hardware", "memory", "storage", "interfaces"}
      ensures Canonicalized(s)[n] == PhysicalInventory(s)[n] && Canonicalized(t)[n] == PhysicalInventory(t)[n]
    {
      InventorySection(s, n);
      InventorySection(t, n);
    }
    InventoryCodes(Canonicalized(s), Canonicalized(t));
    SystemCodes(s.system, t.system);
  }

  lemma SystemCodes(o: Object, q: Object)
    ensures var d := SystemChanges(o, q);
      && (HOSTNAME_CHANGED in d <==> Get(o, "hostname") != Get(q, "hostname"))
      && (OS_CHANGED in d <==> !SameFields(o, q, {"platform", "os_name", "os_version", "os_build", "architecture"}))
      && forall c | c in d :: c == HOSTNAME_CHANGED || c == OS_CHANGED
  {
    SameValues(o, q, OS_FIELDS);
    assert forall n :: n in OS_FIELDS <==> n in {"platform", "os_name", "os_version", "os_build", "architecture"};
  }
}
