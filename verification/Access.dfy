/** Who may do what to a document: the capability rules, with no roles in them. */
module Access {
  import opened Prelude

  type Capability = string

  datatype Status = Draft | Scheduled | Published | Archived | Trash

  datatype Operation = ReadDoc | CreateDoc | UpdateDoc | DeleteDoc | PublishDoc

  /** An anonymous actor has no id and owns nothing. */
  datatype Actor = Actor(capabilities: set<Capability>, id: Option<Id>)

  datatype OperationAccess = OperationAccess(any: Capability, own: Option<Capability>)

  type AccessTable = Operation -> OperationAccess

  /** `owner` is absent both when the owner was deleted and when there is no row yet. */
  predicate Allows(access: OperationAccess, actor: Actor, owner: Option<Id>) {
    if access.any in actor.capabilities then true
    else if access.own.None? || access.own.value !in actor.capabilities then false
    else actor.id.Some? && owner.Some? && actor.id.value == owner.value
  }

  predicate IsPublishable(status: Status) {
    status == Published || status == Scheduled
  }

  function OperationsForWrite(current: Option<Status>, next: Status): seq<Operation> {
    var base := if current.None? then CreateDoc else UpdateDoc;
    var touchesPublic := IsPublishable(next) || (current.Some? && IsPublishable(current.value));
    if touchesPublic then [base, PublishDoc] else [base]
  }

  function OperationsForDelete(status: Status): seq<Operation> {
    if IsPublishable(status) then [DeleteDoc, PublishDoc] else [DeleteDoc]
  }

  predicate MayPerformAll(access: AccessTable, operations: seq<Operation>, actor: Actor, owner: Option<Id>) {
    forall i :: 0 <= i < |operations| ==> Allows(access(operations[i]), actor, owner)
  }

  predicate CanWrite(access: AccessTable, current: Option<Status>, next: Status, actor: Actor, owner: Option<Id>) {
    MayPerformAll(access, OperationsForWrite(current, next), actor, owner)
  }

  predicate CanDelete(access: AccessTable, status: Status, actor: Actor, owner: Option<Id>) {
    MayPerformAll(access, OperationsForDelete(status), actor, owner)
  }

  predicate MayPublish(access: AccessTable, actor: Actor, owner: Option<Id>) {
    Allows(access(PublishDoc), actor, owner)
  }

  /**
   * Entering, staying in and leaving a publishable status all cost the publish check, and
   * nothing else does.
   */
  lemma {:induction false} WriteCostsPublish(access: AccessTable, current: Option<Status>, next: Status, actor: Actor, owner: Option<Id>)
    ensures CanWrite(access, current, next, actor, owner) <==>
            && Allows(access(if current.None? then CreateDoc else UpdateDoc), actor, owner)
            && ((IsPublishable(next) || (current.Some? && IsPublishable(current.value))) ==>
                  MayPublish(access, actor, owner))
  {
    var operations := OperationsForWrite(current, next);
    assert operations[0] == if current.None? then CreateDoc else UpdateDoc;
    if |operations| == 2 {
      assert operations[1] == PublishDoc;
    }
  }

  lemma {:induction false} DeleteCostsPublish(access: AccessTable, status: Status, actor: Actor, owner: Option<Id>)
    ensures CanDelete(access, status, actor, owner) <==>
            && Allows(access(DeleteDoc), actor, owner)
            && (IsPublishable(status) ==> MayPublish(access, actor, owner))
  {
    var operations := OperationsForDelete(status);
    assert operations[0] == DeleteDoc;
    if |operations| == 2 {
      assert operations[1] == PublishDoc;
    }
  }
}
