/** The policy registry as shipped. */
module ShippedPolicies {
  import opened FleetDb
  import opened LifecyclePolicy
  import opened Text

  /** The distinct kinds of entry in the registry. */
  datatype Kind =
    | SoftDeletable | PlannedSoftDeletable | UnderAsset | UnderWorkOrder | UnderAogEvent
    | ProtectedByStatus | PlannedByStatus | Retained | PlannedRetained | DependencyControlled
    | Undecided | Ephemeral | ManagedElsewhere | HardDeletedConfig | NoEntity

  function Build(kind: Kind, name: string): Policy {
    match kind
    case SoftDeletable => Policy(name, SOFT_DELETE_RESTORE, SOFT_DELETE, true, true, true, true, false, true, None)
    case PlannedSoftDeletable => Policy(name, SOFT_DELETE_RESTORE, SOFT_DELETE, true, true, true, true, false, false, None)
    case UnderAsset => Policy(name, SOFT_DELETE_RESTORE, INHERITED, true, true, true, true, false, true, Some("ASSET"))
    case UnderWorkOrder => Policy(name, SOFT_DELETE_RESTORE, INHERITED, true, true, true, true, false, true, Some("WORKORDER"))
    case UnderAogEvent => Policy(name, ARCHIVE_STATUS, INHERITED, false, false, false, false, false, false, Some("AOGEVENT"))
    case ProtectedByStatus => Policy(name, ARCHIVE_STATUS, STATUS_TRANSITION, false, false, false, false, true, true, None)
    case PlannedByStatus => Policy(name, ARCHIVE_STATUS, STATUS_TRANSITION, false, false, false, false, false, false, None)
    case Retained => Policy(name, RETENTION_PROTECTED, Mechanism.NONE, false, false, false, false, true, true, None)
    case PlannedRetained => Policy(name, RETENTION_PROTECTED, Mechanism.NONE, false, false, false, false, true, false, None)
    case DependencyControlled => Policy(name, DEPENDENCY_CONTROLLED, STATUS_TRANSITION, false, false, false, true, false, false, None)
    case Undecided => Policy(name, UNRESOLVED, Mechanism.NONE, false, false, false, false, false, false, None)
    case Ephemeral => Policy(name, ARCHIVE_STATUS, Mechanism.NONE, false, false, false, false, false, false, None)
    case ManagedElsewhere => Policy(name, NOT_APPLICABLE, Mechanism.NONE, false, false, false, false, false, true, None)
    case HardDeletedConfig => Policy(name, NOT_APPLICABLE, Mechanism.NONE, false, false, true, false, false, true, None)
    case NoEntity => Policy(name, NOT_APPLICABLE, Mechanism.NONE, false, false, false, false, false, false, None)
  }

  /** `ENTITY_LIFECYCLE_POLICIES`, entity type by entity type. */
  function KindOf(name: string): Option<Kind> {
    if name in {"ORGANIZATION", "ASSET", "WORKORDER"} then Some(SoftDeletable)
    else if name in {"AIRCRAFT", "DRONE", "HELICOPTER", "EVTOL"} then Some(UnderAsset)
    else if name in {"TASK", "PARTREQUIREMENT"} then Some(UnderWorkOrder)
    else if name == "AOGEVENT" then Some(PlannedByStatus)
    else OtherKind(name)
  }

  function OtherKind(name: string): Option<Kind> {
    if name == "VENDOR" then Some(PlannedSoftDeletable)
    else if name in {"USER", "COMPONENT", "BATTERY"} then Some(ProtectedByStatus)
    else if name == "MISSION" then Some(PlannedByStatus)
    else if name == "AOGBLOCKER" then Some(UnderAogEvent)
    else if name in {"FLIGHT", "INSPECTIONREQUIREMENT", "COMPLIANCEASSESSMENT", "MAINTENANCEACCOMPLISHMENT", "FINDING",
                     "EVIDENCE", "DEFERREDITEM", "REGULATORYDOCUMENT", "APPROVALREQUEST", "TECHNICIANQUALIFICATION",
                     "IMPORTJOB", "INVENTORYTRANSACTION", "INSTALLATIONHISTORY", "AUDITEVENT"} then Some(Retained)
    else if name == "EVIDENCEFILE" then Some(PlannedRetained)
    else if name in {"PART", "PURCHASEORDER", "PROCUREMENTREQUEST"} then Some(DependencyControlled)
    else if name == "FACILITY" then Some(Undecided)
    else if name == "LISACONVERSATIONCONTEXT" then Some(Ephemeral)
    else if name == "USERROLE" then Some(ManagedElsewhere)
    else if name in {"TENANTFEATUREOVERRIDE", "TENANTUSAGELIMIT"} then Some(HardDeletedConfig)
    else if name in {"VENDORPARTAVAILABILITY", "CONFIGURATIONS"} then Some(NoEntity)
    else None
  }

  /** A registry holding exactly the shipped entries. */
  ghost predicate IsShipped(reg: Registry) {
    && (forall k :: k in reg <==> KindOf(k).Some?)
    && (forall k :: k in reg ==> reg[k] == Build(KindOf(k).value, k))
  }

  lemma KindsConsistent(kind: Kind, name: string)
    ensures RootConsistent(Build(kind, name))
    ensures Build(kind, name).inheritsFrom.Some? ==> Build(kind, name).inheritsFrom.value in {"ASSET", "WORKORDER", "AOGEVENT"}
  {
  }

  lemma UpperRoots()
    ensures Upper("ASSET") == "ASSET" && Upper("WORKORDER") == "WORKORDER" && Upper("AOGEVENT") == "AOGEVENT"
  {
  }

  lemma RootKinds()
    ensures KindOf("ASSET") == Some(SoftDeletable) && KindOf("WORKORDER") == Some(SoftDeletable)
    ensures KindOf("AOGEVENT") == Some(PlannedByStatus)
  {
  }

  /** In the shipped registry every registered name resolves in at most one
      link, to a root, and whatever may be deleted or restored is visible in
      the deletion queue. */
  lemma ShippedRegistry(reg: Registry, name: string)
    requires IsShipped(reg)
    ensures Closed(reg) && QueueShowsEverything(reg)
    ensures Upper(name) in reg ==> Resolve(reg, name, 1).Resolved? && ResolvePolicy(reg, name) == Resolve(reg, name, 1)
  {
    RootKinds();
    UpperRoots();
    forall k | k in reg
      ensures RootConsistent(reg[k])
      ensures reg[k].inheritsFrom.Some? ==> Upper(reg[k].inheritsFrom.value) in reg
    {
      KindsConsistent(KindOf(k).value, k);
    }
    ConsistentShowsEverything(reg);
    if Upper(name) in reg {
      KindsConsistent(KindOf(Upper(name)).value, Upper(name));
      assert |reg.Keys| > 0;
      MoreHopsSameAnswer(reg, name, 1, |reg|);
    }
  }

  /** The verdicts on a name are decided by the kind of its entry alone. */
  lemma VerdictsByKind(reg: Registry, name: string, kind: Kind)
    requires Upper(name) in reg && reg[Upper(name)] == Build(kind, Upper(name))
    requires "ASSET" in reg && reg["ASSET"] == Build(SoftDeletable, "ASSET")
    requires "WORKORDER" in reg && reg["WORKORDER"] == Build(SoftDeletable, "WORKORDER")
    requires "AOGEVENT" in reg && reg["AOGEVENT"] == Build(PlannedByStatus, "AOGEVENT")
    requires ResolvePolicy(reg, name) == Resolve(reg, name, 1)
    ensures Check(TenantDelete, reg, name).Permitted? <==> kind in {SoftDeletable, UnderAsset, UnderWorkOrder}
    ensures Check(RestoreRecord, reg, name).Permitted? <==> kind in {SoftDeletable, UnderAsset, UnderWorkOrder}
    ensures Check(PermanentDelete, reg, name).Permitted? <==> kind in {SoftDeletable, UnderAsset, UnderWorkOrder, HardDeletedConfig}
    ensures Check(DeletionQueue, reg, name).Permitted? <==> kind !in {ProtectedByStatus, Retained, PlannedRetained}
    ensures forall g :: g != DeletionQueue ==>
              (Check(g, reg, name) == NotImplemented
               <==> kind in {PlannedSoftDeletable, UnderAogEvent, PlannedByStatus, PlannedRetained, DependencyControlled,
                             Undecided, Ephemeral, NoEntity})
  {
    UpperRoots();
  }

  const DELETABLE := {"ORGANIZATION", "ASSET", "WORKORDER", "AIRCRAFT", "DRONE", "HELICOPTER", "EVTOL", "TASK", "PARTREQUIREMENT"}

  lemma OtherKinds(name: string)
    ensures OtherKind(name) !in {Some(SoftDeletable), Some(UnderAsset), Some(UnderWorkOrder)}
    ensures OtherKind(name) == Some(HardDeletedConfig) <==> name in {"TENANTFEATUREOVERRIDE", "TENANTUSAGELIMIT"}
  {
  }

  lemma DeletableKinds(name: string)
    ensures KindOf(name) in {Some(SoftDeletable), Some(UnderAsset), Some(UnderWorkOrder)} <==> name in DELETABLE
    ensures KindOf(name) == Some(HardDeletedConfig) <==> name in {"TENANTFEATUREOVERRIDE", "TENANTUSAGELIMIT"}
  {
    OtherKinds(name);
  }

  lemma ShippedVerdicts(reg: Registry, name: string)
    requires IsShipped(reg) && Upper(name) in reg
    ensures Check(TenantDelete, reg, name).Permitted? <==> KindOf(Upper(name)).value in {SoftDeletable, UnderAsset, UnderWorkOrder}
    ensures Check(RestoreRecord, reg, name).Permitted? <==> KindOf(Upper(name)).value in {SoftDeletable, UnderAsset, UnderWorkOrder}
    ensures Check(PermanentDelete, reg, name).Permitted?
            <==> KindOf(Upper(name)).value in {SoftDeletable, UnderAsset, UnderWorkOrder, HardDeletedConfig}
  {
    RootKinds();
    ShippedRegistry(reg, name);
    VerdictsByKind(reg, name, KindOf(Upper(name)).value);
  }

  /** The entity types a tenant may delete and restore today, in any spelling;
      an administrator may also remove two kinds of tenant configuration. */
  lemma Deletable(reg: Registry, name: string)
    requires IsShipped(reg)
    ensures Check(TenantDelete, reg, name).Permitted? <==> Upper(name) in DELETABLE
    ensures Check(RestoreRecord, reg, name).Permitted? <==> Upper(name) in DELETABLE
    ensures Check(PermanentDelete, reg, name).Permitted?
            <==> Upper(name) in DELETABLE || Upper(name) in {"TENANTFEATUREOVERRIDE", "TENANTUSAGELIMIT"}
  {
    DeletableKinds(Upper(name));
    if Upper(name) in reg {
      ShippedVerdicts(reg, name);
    } else {
      assert GetPolicy(reg, name) == None;
    }
  }

  const REFUSED_IN_QUEUE := {
    "USER", "COMPONENT", "BATTERY", "FLIGHT", "INSPECTIONREQUIREMENT", "COMPLIANCEASSESSMENT", "MAINTENANCEACCOMPLISHMENT",
    "FINDING", "EVIDENCE", "DEFERREDITEM", "REGULATORYDOCUMENT", "APPROVALREQUEST", "TECHNICIANQUALIFICATION", "IMPORTJOB",
    "INVENTORYTRANSACTION", "INSTALLATIONHISTORY", "AUDITEVENT", "EVIDENCEFILE"}

  const NOT_IMPLEMENTED := {
    "VENDOR", "MISSION", "AOGEVENT", "AOGBLOCKER", "EVIDENCEFILE", "PART", "PURCHASEORDER", "PROCUREMENTREQUEST", "FACILITY",
    "LISACONVERSATIONCONTEXT", "VENDORPARTAVAILABILITY", "CONFIGURATIONS"}

  lemma QueueKinds(name: string)
    ensures KindOf(name) in {Some(ProtectedByStatus), Some(Retained), Some(PlannedRetained)} <==> name in REFUSED_IN_QUEUE
  {
  }

  predicate Unimplemented(kind: Kind) {
    kind in {PlannedSoftDeletable, UnderAogEvent, PlannedByStatus, PlannedRetained, DependencyControlled, Undecided, Ephemeral, NoEntity}
  }

  lemma OtherUnimplemented(name: string)
    ensures OtherKind(name).Some? && Unimplemented(OtherKind(name).value) <==> name in NOT_IMPLEMENTED - {"AOGEVENT"}
  {
  }

  lemma UnimplementedKinds(name: string)
    ensures KindOf(name).Some? && Unimplemented(KindOf(name).value) <==> name in NOT_IMPLEMENTED
  {
    OtherUnimplemented(name);
  }

  lemma ShippedInQueue(reg: Registry, name: string)
    requires IsShipped(reg) && Upper(name) in reg
    ensures Check(DeletionQueue, reg, name).Permitted? <==> KindOf(Upper(name)) !in {Some(ProtectedByStatus), Some(Retained), Some(PlannedRetained)}
  {
    RootKinds();
    ShippedRegistry(reg, name);
    VerdictsByKind(reg, name, KindOf(Upper(name)).value);
  }

  lemma ShippedUnimplemented(reg: Registry, name: string)
    requires IsShipped(reg) && Upper(name) in reg
    ensures Check(TenantDelete, reg, name) == NotImplemented <==> Unimplemented(KindOf(Upper(name)).value)
  {
    RootKinds();
    ShippedRegistry(reg, name);
    VerdictsByKind(reg, name, KindOf(Upper(name)).value);
  }

  /** The registered entity types that can never appear in the deletion queue,
      and those whose deletion is planned but not implemented, in any spelling. */
  lemma Refused(reg: Registry, name: string)
    requires IsShipped(reg) && Upper(name) in reg
    ensures Check(DeletionQueue, reg, name) == Forbidden <==> Upper(name) in REFUSED_IN_QUEUE
    ensures Check(TenantDelete, reg, name) == NotImplemented <==> Upper(name) in NOT_IMPLEMENTED
  {
    ShippedRegistry(reg, name);
    GuardVerdicts(reg, name);
    ShippedInQueue(reg, name);
    ShippedUnimplemented(reg, name);
    QueueKinds(Upper(name));
    UnimplementedKinds(Upper(name));
  }

  // ---- every entry, flag by flag ----

  /** What an entry of a kind says of itself, whether or not a guard asks it today. */
  lemma FlagsByKind(kind: Kind, name: string)
    ensures var p := Build(kind, name);
            && p.entityType == name
            && (p.tenantDelete <==> kind in {SoftDeletable, UnderAsset, UnderWorkOrder, PlannedSoftDeletable})
            && (p.restore <==> p.tenantDelete) && (p.permanentDelete <==> p.tenantDelete || kind == HardDeletedConfig)
            && (p.dependencyCheck <==> p.tenantDelete || kind == DependencyControlled)
            && (p.category == SOFT_DELETE_RESTORE <==> p.tenantDelete)
            && (p.category == RETENTION_PROTECTED <==> kind in {Retained, PlannedRetained})
            && (p.retentionProtected <==> p.category == RETENTION_PROTECTED || kind == ProtectedByStatus)
            && (p.mechanism == INHERITED <==> p.inheritsFrom.Some?)
            && (p.mechanism == SOFT_DELETE <==> kind in {SoftDeletable, PlannedSoftDeletable})
  {
  }

  lemma PlannedKinds(name: string)
    ensures KindOf(name) == Some(PlannedSoftDeletable) <==> name == "VENDOR"
    ensures KindOf(name) == Some(DependencyControlled) <==> name in {"PART", "PURCHASEORDER", "PROCUREMENTREQUEST"}
  {
  }

  lemma InheritingKinds(name: string)
    ensures KindOf(name) == Some(UnderAsset) <==> name in {"AIRCRAFT", "DRONE", "HELICOPTER", "EVTOL"}
    ensures KindOf(name) == Some(UnderWorkOrder) <==> name in {"TASK", "PARTREQUIREMENT"}
    ensures KindOf(name) == Some(UnderAogEvent) <==> name == "AOGBLOCKER"
  {
  }

  /** Which entries carry which flag, entry by entry. */
  lemma FlagsByName(reg: Registry, k: string)
    requires IsShipped(reg) && k in reg
    ensures reg[k].tenantDelete <==> k in DELETABLE || k == "VENDOR"
    ensures reg[k].restore <==> reg[k].tenantDelete
    ensures reg[k].permanentDelete <==> reg[k].tenantDelete || k in {"TENANTFEATUREOVERRIDE", "TENANTUSAGELIMIT"}
    ensures reg[k].dependencyCheck <==> reg[k].tenantDelete || k in {"PART", "PURCHASEORDER", "PROCUREMENTREQUEST"}
    ensures reg[k].retentionProtected <==> k in REFUSED_IN_QUEUE
  {
    FlagsByKind(KindOf(k).value, k);
    DeletableKinds(k);
    PlannedKinds(k);
    QueueKinds(k);
  }

  lemma ParentsByKind(kind: Kind, name: string)
    ensures var parent := Build(kind, name).inheritsFrom;
            && (parent == Some("ASSET") <==> kind == UnderAsset) && (parent == Some("WORKORDER") <==> kind == UnderWorkOrder)
            && (parent == Some("AOGEVENT") <==> kind == UnderAogEvent) && (parent == None <==> kind !in {UnderAsset, UnderWorkOrder, UnderAogEvent})
  {
  }

  /** Which entries inherit, and from which. */
  lemma ParentsByName(reg: Registry, k: string)
    requires IsShipped(reg) && k in reg
    ensures reg[k].inheritsFrom
            == if k in {"AIRCRAFT", "DRONE", "HELICOPTER", "EVTOL"} then Some("ASSET")
               else if k in {"TASK", "PARTREQUIREMENT"} then Some("WORKORDER")
               else if k == "AOGBLOCKER" then Some("AOGEVENT") else None
  {
    ParentsByKind(KindOf(k).value, k);
    InheritingKinds(k);
  }
}
