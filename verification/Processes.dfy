/** Process identities, validated parentage and the depth-limited walk to a process's
    ancestors (src/process_observation/identity.rs, src/process_observation/snapshot.rs). */
module Processes {
  import opened Common

  // ---------------------------------------------------------------------------
  // Identities
  // ---------------------------------------------------------------------------

  datatype ProcessIdentity = ProcessIdentity(pid: nat, creationToken: nat)

  /** One lifetime plus the executable and arguments active in it. */
  datatype Incarnation = Incarnation(identity: ProcessIdentity, fingerprint: nat)

  predicate IdentityBefore(left: ProcessIdentity, right: ProcessIdentity) {
    left.pid < right.pid || (left.pid == right.pid && left.creationToken < right.creationToken)
  }

  predicate Before(left: Incarnation, right: Incarnation) {
    || IdentityBefore(left.identity, right.identity)
    || (left.identity == right.identity && left.fingerprint < right.fingerprint)
  }

  // ---------------------------------------------------------------------------
  // Records
  // ---------------------------------------------------------------------------

  /** A position in the host's boot-time creation order, when the platform exposes one. */
  datatype CreationOrder = Monotonic(value: nat) | OrderUnavailable

  datatype ParentCreationOrder = CreatedAfterChild | NotCreatedAfterChild | Undecided

  datatype ReportedParent = SystemRoot | Identified(parent: ProcessIdentity) | IdentityUnavailable | NotObserved

  /** `fingerprint` is present when the record's incarnation evidence is strong. */
  datatype ProcessRecord = ProcessRecord(
    creation: CreationOrder,
    parent: ReportedParent,
    fingerprint: Option<nat>,
    argvReadable: bool,
    executableReadable: bool,
    workingDirectoryReadable: bool)

  type ProcessTable = map<ProcessIdentity, ProcessRecord>

  datatype Parentage =
    | Root
    | ValidatedEdge(parent: ProcessIdentity)
    | SelfParent
    | ParentCreatedLater
    | ParentReplaced
    | CreationOrderUnavailable
    | IdentifiedParentUnavailable
    | ParentUnavailable
    | EvidenceUnavailable

  function ParentRelativeToChild(parent: CreationOrder, child: CreationOrder): ParentCreationOrder {
    if parent.OrderUnavailable? || child.OrderUnavailable? then Undecided
    else if parent.value > child.value then CreatedAfterChild
    else if parent.value < child.value then NotCreatedAfterChild
    else Undecided
  }

  function ValidateParentage(processes: ProcessTable, child: ProcessIdentity): Parentage
    requires child in processes
  {
    match processes[child].parent
    case SystemRoot => Root
    case IdentityUnavailable => ParentUnavailable
    case NotObserved => EvidenceUnavailable
    case Identified(parent) =>
      if parent == child then SelfParent
      else if parent in processes then
        match ParentRelativeToChild(processes[parent].creation, processes[child].creation)
        case CreatedAfterChild => ParentCreatedLater
        case NotCreatedAfterChild => ValidatedEdge(parent)
        case Undecided => CreationOrderUnavailable
      else if exists current <- processes :: current.pid == parent.pid then ParentReplaced
      else IdentifiedParentUnavailable
  }

  function ValidatedParent(processes: ProcessTable, child: ProcessIdentity): Option<ProcessIdentity> {
    if child in processes && ValidateParentage(processes, child).ValidatedEdge?
    then Some(ValidateParentage(processes, child).parent)
    else None
  }

  /** An edge is validated when the parent is observed and both creation positions are known
      and put the parent strictly before the child. */
  lemma ValidatedEdgeMeans(processes: ProcessTable, child: ProcessIdentity, parent: ProcessIdentity)
    ensures ValidatedParent(processes, child) == Some(parent) <==>
              && child in processes && parent in processes && processes[child].parent == Identified(parent)
              && processes[parent].creation.Monotonic? && processes[child].creation.Monotonic?
              && processes[parent].creation.value < processes[child].creation.value
  {
  }

  /** Why any other edge is not. */
  lemma RejectedEdgeMeans(processes: ProcessTable, child: ProcessIdentity)
    requires child in processes
    ensures var parentage, reported := ValidateParentage(processes, child), processes[child].parent;
            && (parentage == Root <==> reported.SystemRoot?)
            && (parentage == ParentUnavailable <==> reported.IdentityUnavailable?)
            && (parentage == EvidenceUnavailable <==> reported.NotObserved?)
            && (parentage == SelfParent <==> reported == Identified(child))
            && (parentage == ParentReplaced || parentage == IdentifiedParentUnavailable <==>
                  reported.Identified? && reported.parent !in processes)
            && (parentage == ParentReplaced ==> exists current <- processes :: current.pid == reported.parent.pid)
            && (parentage == IdentifiedParentUnavailable ==>
                  forall current <- processes :: current.pid != reported.parent.pid)
            && (parentage == ParentCreatedLater ==>
                  && processes[reported.parent].creation.Monotonic? && processes[child].creation.Monotonic?
                  && processes[reported.parent].creation.value > processes[child].creation.value)
            && (parentage == CreationOrderUnavailable ==>
                  || processes[reported.parent].creation.OrderUnavailable?
                  || processes[child].creation.OrderUnavailable?
                  || processes[reported.parent].creation.value == processes[child].creation.value)
  {
  }

  /** Creation positions strictly fall along validated edges. */
  function Created(processes: ProcessTable, process: ProcessIdentity): nat {
    if process in processes && processes[process].creation.Monotonic? then processes[process].creation.value else 0
  }

  lemma ParentCreatedBefore(processes: ProcessTable, child: ProcessIdentity)
    requires ValidatedParent(processes, child).Some?
    ensures var parent := ValidatedParent(processes, child).value;
            parent in processes && Created(processes, parent) < Created(processes, child)
  {
  }

  // ---------------------------------------------------------------------------
  // Ancestors
  // ---------------------------------------------------------------------------

  /** The nearest ancestors along validated edges, no more than `depth` of them. */
  function Ancestors(processes: ProcessTable, process: ProcessIdentity, depth: nat): seq<ProcessIdentity>
    decreases depth
  {
    if depth == 0 then []
    else
      match ValidatedParent(processes, process)
      case None => []
      case Some(parent) => [parent] + Ancestors(processes, parent, depth - 1)
  }

  /** The ancestor a number of validated edges away. */
  function NthParent(processes: ProcessTable, process: ProcessIdentity, n: nat): Option<ProcessIdentity>
    decreases n
  {
    if n == 0 then Some(process)
    else
      match ValidatedParent(processes, process)
      case None => None
      case Some(parent) => NthParent(processes, parent, n - 1)
  }

  /** Some chain of validated edges, however long, leads from one process up to another. */
  ghost predicate DescendsFrom(processes: ProcessTable, process: ProcessIdentity, ancestor: ProcessIdentity) {
    exists n :: n > 0 && NthParent(processes, process, n) == Some(ancestor)
  }

  lemma {:induction false} NthParentCreatedBefore(processes: ProcessTable, process: ProcessIdentity, n: nat)
    requires n > 0 && NthParent(processes, process, n).Some?
    ensures Created(processes, NthParent(processes, process, n).value) < Created(processes, process)
    decreases n
  {
    ParentCreatedBefore(processes, process);
    if n > 1 {
      NthParentCreatedBefore(processes, ValidatedParent(processes, process).value, n - 1);
    }
  }

  lemma {:induction false} NthParentComposes(processes: ProcessTable, process: ProcessIdentity, m: nat, n: nat)
    requires NthParent(processes, process, m).Some?
    ensures NthParent(processes, process, m + n) == NthParent(processes, NthParent(processes, process, m).value, n)
    decreases m
  {
    if m > 0 {
      NthParentComposes(processes, ValidatedParent(processes, process).value, m - 1, n);
    }
  }

  lemma {:induction false} AncestorIsNthParent(processes: ProcessTable, process: ProcessIdentity, depth: nat,
                                               ancestor: ProcessIdentity)
    returns (n: nat)
    requires ancestor in Ancestors(processes, process, depth)
    ensures 1 <= n <= depth && NthParent(processes, process, n) == Some(ancestor)
    decreases depth
  {
    var parent := ValidatedParent(processes, process).value;
    if ancestor == parent {
      n := 1;
    } else {
      n := AncestorIsNthParent(processes, parent, depth - 1, ancestor);
      n := n + 1;
    }
  }

  lemma {:induction false} NthParentIsAncestor(processes: ProcessTable, process: ProcessIdentity, depth: nat, n: nat)
    requires 1 <= n <= depth && NthParent(processes, process, n).Some?
    ensures NthParent(processes, process, n).value in Ancestors(processes, process, depth)
    decreases depth
  {
    var parent := ValidatedParent(processes, process).value;
    assert Ancestors(processes, process, depth)[0] == parent;
    if n > 1 {
      NthParentIsAncestor(processes, parent, depth - 1, n - 1);
    }
  }

  /** The walk finds exactly the processes up to `depth` validated edges above. */
  lemma AncestorsAre(processes: ProcessTable, process: ProcessIdentity, depth: nat, ancestor: ProcessIdentity)
    ensures ancestor in Ancestors(processes, process, depth)
       <==> exists n :: 1 <= n <= depth && NthParent(processes, process, n) == Some(ancestor)
  {
    if ancestor in Ancestors(processes, process, depth) {
      var n := AncestorIsNthParent(processes, process, depth, ancestor);
    }
    if n :| 1 <= n <= depth && NthParent(processes, process, n) == Some(ancestor) {
      NthParentIsAncestor(processes, process, depth, n);
    }
  }

  /** Descent is transitive, and never leads back to where it started. */
  lemma DescentIsStrictOrder(processes: ProcessTable, low: ProcessIdentity, middle: ProcessIdentity,
                             high: ProcessIdentity)
    requires DescendsFrom(processes, low, middle)
    ensures low != middle && Created(processes, middle) < Created(processes, low)
    ensures DescendsFrom(processes, middle, high) ==> DescendsFrom(processes, low, high)
  {
    var m :| m > 0 && NthParent(processes, low, m) == Some(middle);
    NthParentCreatedBefore(processes, low, m);
    if DescendsFrom(processes, middle, high) {
      var n :| n > 0 && NthParent(processes, middle, n) == Some(high);
      NthParentComposes(processes, low, m, n);
      assert m + n > 0 && NthParent(processes, low, m + n) == Some(high);
    }
  }

  lemma AncestorDescends(processes: ProcessTable, process: ProcessIdentity, depth: nat, ancestor: ProcessIdentity)
    requires ancestor in Ancestors(processes, process, depth)
    ensures DescendsFrom(processes, process, ancestor)
  {
    AncestorsAre(processes, process, depth, ancestor);
    var n :| 1 <= n <= depth && NthParent(processes, process, n) == Some(ancestor);
    assert n > 0 && NthParent(processes, process, n) == Some(ancestor);
  }

  lemma AncestorsExtend(processes: ProcessTable, process: ProcessIdentity, depth: nat, ancestors: seq<ProcessIdentity>,
                        current: ProcessIdentity, parent: ProcessIdentity)
    requires |ancestors| < depth && ValidatedParent(processes, current) == Some(parent)
    requires Ancestors(processes, process, depth) == ancestors + Ancestors(processes, current, depth - |ancestors|)
    ensures Ancestors(processes, process, depth)
         == (ancestors + [parent]) + Ancestors(processes, parent, depth - |ancestors| - 1)
  {
    assert Ancestors(processes, current, depth - |ancestors|)
        == [parent] + Ancestors(processes, parent, depth - |ancestors| - 1);
  }

  /** Walks up from a process. The walk stops at an edge back to a process it has already
      visited, but creation order rules such an edge out: it always collects every ancestor
      within the depth. */
  method ValidatedAncestry(processes: ProcessTable, process: ProcessIdentity,
                           depth: nat)
      returns (ancestors: seq<ProcessIdentity>)
    ensures ancestors == Ancestors(processes, process, depth)
  {
    ancestors := [];
    var current := process;
    var visited := {process};
    while |ancestors| < depth
      invariant |ancestors| <= depth
      invariant Ancestors(processes, process, depth) == ancestors + Ancestors(processes, current, depth - |ancestors|)
      invariant forall seen <- visited :: seen == current || Created(processes, seen) > Created(processes, current)
      decreases depth - |ancestors|
    {
      match ValidatedParent(processes, current) {
        case None => return;
        case Some(parent) =>
          ParentCreatedBefore(processes, current);
          if parent in visited {
            return;
          }
          AncestorsExtend(processes, process, depth, ancestors, current, parent);
          visited := visited + {parent};
          ancestors := ancestors + [parent];
          current := parent;
      }
    }
  }
}
