/** Versioned plans (extensions/plan/main.go, extensions/plan/state.go).

    Every handler runs under one lock, so an interleaving of agents is a sequence of
    operations.  `saved` says whether writing the snapshot succeeds: the handlers change
    the state in memory first and report a failed write afterwards. */
module Plans {
  import opened Options
  import opened GoStrings

  datatype PlanStep = PlanStep(
    id: string, title: string, description: string, status: string, notes: string, assignee: string,
    agentID: string, evidence: seq<string>)

  datatype Plan = Plan(
    id: string, title: string, description: string, content: string, status: string,
    createdBy: string, updatedBy: string, completionOverride: string, steps: seq<PlanStep>, version: int)

  type PlanMap = map<string, Plan>

  predicate ValidPlanStatus(status: string) {
    status in {"active", "paused", "completed", "archived"}
  }

  predicate ValidStepStatus(status: string) {
    status in {"pending", "in_progress", "completed", "blocked"}
  }

  predicate Blank(s: string) {
    TrimSpace(s) == ""
  }

  datatype Op =
    | Create(id: string, title: string, description: string, content: string, agentID: string, steps: seq<PlanStep>)
    | Update(id: string, newTitle: Option<string>, newDescription: Option<string>, newStatus: Option<string>,
             newContent: Option<string>, expectedVersion: Option<int>, agentID: string)
    | StepUpdate(id: string, stepID: string, newStatus: Option<string>, newDescription: Option<string>,
                 newNotes: Option<string>, expectedVersion: Option<int>, agentID: string)
    | Evidence(id: string, stepID: string, evidence: string)
    | Assign(id: string, stepID: string, assignee: string, expectedVersion: Option<int>)
    | Complete(id: string, overrideReason: string)

  datatype Result =
    | Done
    | NotPersisted                    // applied in memory, snapshot not written
    | MissingParameters
    | PlanNotFound
    | StepNotFound
    | VersionConflict(current: int)
    | EmptyTitle
    | StepTitleRequired(number: nat)
    | InvalidStatus
    | StepsIncomplete(ids: seq<string>)
    | EvidenceRequired(ids: seq<string>)

  /** The handler carried out the whole operation.  Otherwise it reports why not; an update
      rejected for its status has replaced the title all the same. */
  predicate Applied(r: Result) {
    r.Done? || r.NotPersisted?
  }

  function Saved(saved: bool): Result {
    if saved then Done else NotPersisted
  }

  // ---------- The handlers as functions ----------

  function Digits(n: nat): string {
    if n < 10 then [('0' as int + n) as char] else Digits(n / 10) + [('0' as int + n % 10) as char]
  }

  function Normalized(step: PlanStep, index: nat): PlanStep {
    step.(title := TrimSpace(step.title),
          id := if step.id == "" then "step-" + Digits(index + 1) else step.id,
          status := if ValidStepStatus(step.status) then step.status else "pending")
  }

  function NormalizedSteps(steps: seq<PlanStep>): seq<PlanStep> {
    seq(|steps|, i requires 0 <= i < |steps| => Normalized(steps[i], i))
  }

  /** The number of the first step without a title, if any. */
  function UntitledStep(steps: seq<PlanStep>, from: nat): Option<nat>
    decreases |steps| - from
  {
    if from >= |steps| then None
    else if Blank(steps[from].title) then Some(from + 1)
    else UntitledStep(steps, from + 1)
  }

  /** The index of the first step with the ID, |steps| when there is none. */
  function FindStep(steps: seq<PlanStep>, id: string): (i: nat)
    ensures i <= |steps| && (i < |steps| ==> steps[i].id == id)
    ensures forall j :: 0 <= j < i ==> steps[j].id != id
  {
    if steps == [] then 0
    else if steps[0].id == id then 0
    else 1 + FindStep(steps[1..], id)
  }

  function Incomplete(steps: seq<PlanStep>): seq<string> {
    if steps == [] then []
    else Incomplete(steps[..|steps| - 1])
         + if steps[|steps| - 1].status != "completed" then [steps[|steps| - 1].id] else []
  }

  function MissingEvidence(steps: seq<PlanStep>): seq<string> {
    if steps == [] then []
    else
      var last := steps[|steps| - 1];
      MissingEvidence(steps[..|steps| - 1])
      + if last.status == "completed" && last.evidence == [] then [last.id] else []
  }

  function Or(o: Option<string>, default: string): string {
    if o.Some? then o.value else default
  }

  predicate Conflicts(plan: Plan, expected: Option<int>) {
    expected.Some? && expected.value != plan.version
  }

  function ApplyCreate(plans: PlanMap, op: Op, saved: bool): (PlanMap, Result)
    requires op.Create?
  {
    if Blank(op.title) then (plans, EmptyTitle)
    else match UntitledStep(op.steps, 0)
      case Some(n) => (plans, StepTitleRequired(n))
      case None =>
        (plans[op.id := Plan(op.id, TrimSpace(op.title), op.description, op.content, "active",
                             op.agentID, op.agentID, "", NormalizedSteps(op.steps), 1)], Saved(saved))
  }

  function ApplyUpdate(plans: PlanMap, op: Op, saved: bool): (PlanMap, Result)
    requires op.Update?
  {
    if Blank(op.id) then (plans, MissingParameters)
    else if op.id !in plans then (plans, PlanNotFound)
    else if Conflicts(plans[op.id], op.expectedVersion) then (plans, VersionConflict(plans[op.id].version))
    else if op.newTitle.Some? && Blank(op.newTitle.value) then (plans, EmptyTitle)
    else
      var plan := plans[op.id];
      var titled := plan.(title := if op.newTitle.Some? then TrimSpace(op.newTitle.value) else plan.title);
      if op.newStatus.Some? && !ValidPlanStatus(op.newStatus.value)
      then (plans[op.id := titled], InvalidStatus) // the new title stays
      else (plans[op.id := titled.(status := Or(op.newStatus, plan.status),
                                   description := Or(op.newDescription, plan.description),
                                   content := Or(op.newContent, plan.content),
                                   version := plan.version + 1,
                                   updatedBy := op.agentID)], Saved(saved))
  }

  function UpdatedStep(step: PlanStep, op: Op): PlanStep
    requires op.StepUpdate?
  {
    step.(status := Or(op.newStatus, step.status),
          description := Or(op.newDescription, step.description),
          notes := Or(op.newNotes, step.notes),
          agentID := if op.agentID != "" then op.agentID else step.agentID)
  }

  function ApplyStepUpdate(plans: PlanMap, op: Op, saved: bool): (PlanMap, Result)
    requires op.StepUpdate?
  {
    if op.id == "" || op.stepID == "" then (plans, MissingParameters)
    else if op.id !in plans then (plans, PlanNotFound)
    else if Conflicts(plans[op.id], op.expectedVersion) then (plans, VersionConflict(plans[op.id].version))
    else
      var plan := plans[op.id];
      var i := FindStep(plan.steps, op.stepID);
      if i == |plan.steps| then (plans, StepNotFound)
      else if op.newStatus.Some? && !ValidStepStatus(op.newStatus.value) then (plans, InvalidStatus)
      else (plans[op.id := plan.(steps := plan.steps[i := UpdatedStep(plan.steps[i], op)],
                                 version := plan.version + 1, updatedBy := op.agentID)], Saved(saved))
  }

  function ApplyEvidence(plans: PlanMap, op: Op, saved: bool): (PlanMap, Result)
    requires op.Evidence?
  {
    if op.id == "" || op.stepID == "" || Blank(op.evidence) then (plans, MissingParameters)
    else if op.id !in plans then (plans, PlanNotFound)
    else
      var plan := plans[op.id];
      var i := FindStep(plan.steps, op.stepID);
      if i == |plan.steps| then (plans, StepNotFound)
      else
        var step := plan.steps[i];
        var evidenced := step.(evidence := step.evidence + [op.evidence]);
        (plans[op.id := plan.(steps := plan.steps[i := evidenced])], Saved(saved))
  }

  function ApplyAssign(plans: PlanMap, op: Op, saved: bool): (PlanMap, Result)
    requires op.Assign?
  {
    if op.id == "" || op.stepID == "" || Blank(op.assignee) then (plans, MissingParameters)
    else if op.id !in plans then (plans, PlanNotFound)
    else if Conflicts(plans[op.id], op.expectedVersion) then (plans, VersionConflict(plans[op.id].version))
    else
      var plan := plans[op.id];
      var i := FindStep(plan.steps, op.stepID);
      if i == |plan.steps| then (plans, StepNotFound)
      else (plans[op.id := plan.(steps := plan.steps[i := plan.steps[i].(assignee := TrimSpace(op.assignee))],
                                 version := plan.version + 1)], Saved(saved))
  }

  function ApplyComplete(plans: PlanMap, op: Op, saved: bool): (PlanMap, Result)
    requires op.Complete?
  {
    if op.id == "" then (plans, MissingParameters)
    else if op.id !in plans then (plans, PlanNotFound)
    else
      var plan := plans[op.id];
      var incomplete := Incomplete(plan.steps);
      if incomplete != [] && Blank(op.overrideReason) then (plans, StepsIncomplete(incomplete))
      else if MissingEvidence(plan.steps) != [] && Blank(op.overrideReason)
      then (plans, EvidenceRequired(MissingEvidence(plan.steps)))
      else (plans[op.id := plan.(status := "completed", version := plan.version + 1,
                                 completionOverride := if incomplete != [] then op.overrideReason
                                                       else plan.completionOverride)], Saved(saved))
  }

  function Apply(plans: PlanMap, op: Op, saved: bool): (PlanMap, Result) {
    match op
    case Create(_, _, _, _, _, _) => ApplyCreate(plans, op, saved)
    case Update(_, _, _, _, _, _, _) => ApplyUpdate(plans, op, saved)
    case StepUpdate(_, _, _, _, _, _, _) => ApplyStepUpdate(plans, op, saved)
    case Evidence(_, _, _) => ApplyEvidence(plans, op, saved)
    case Assign(_, _, _, _) => ApplyAssign(plans, op, saved)
    case Complete(_, _) => ApplyComplete(plans, op, saved)
  }

  // ---------- The handlers ----------

  class PlanStore {
    var plans: PlanMap
    var activeID: string

    constructor ()
      ensures plans == map[] && activeID == ""
    {
      plans := map[];
      activeID := "";
    }

    /** newPlan: rewrites the steps one by one, or reports the first without a title. */
    method NormalizeSteps(given: seq<PlanStep>) returns (steps: seq<PlanStep>, untitled: Option<nat>)
      ensures untitled == UntitledStep(given, 0)
      ensures untitled == None ==> steps == NormalizedSteps(given)
    {
      steps := given;
      for i := 0 to |given|
        invariant |steps| == |given|
        invariant UntitledStep(given, 0) == UntitledStep(given, i)
        invariant forall j :: 0 <= j < |given| ==> steps[j] == if j < i then Normalized(given[j], j) else given[j]
      {
        steps := steps[i := steps[i].(title := TrimSpace(steps[i].title))];
        if steps[i].title == "" {
          return steps, Some(i + 1);
        }
        if steps[i].id == "" {
          steps := steps[i := steps[i].(id := "step-" + Digits(i + 1))];
        }
        if !ValidStepStatus(steps[i].status) {
          steps := steps[i := steps[i].(status := "pending")];
        }
      }
      return steps, None;
    }

    method PlanCreate(op: Op, saved: bool) returns (r: Result)
      requires op.Create?
      modifies this
      ensures (plans, r) == ApplyCreate(old(plans), op, saved)
      ensures activeID == if Applied(r) then op.id else old(activeID)
    {
      var title := TrimSpace(op.title);
      if title == "" {
        return EmptyTitle;
      }
      var steps, untitled := NormalizeSteps(op.steps);
      if untitled.Some? {
        return StepTitleRequired(untitled.value);
      }
      plans := plans[op.id := Plan(op.id, title, op.description, op.content, "active",
                                   op.agentID, op.agentID, "", steps, 1)];
      activeID := op.id;
      return Saved(saved);
    }

    method PlanUpdate(op: Op, saved: bool) returns (r: Result)
      requires op.Update?
      modifies `plans
      ensures (plans, r) == ApplyUpdate(old(plans), op, saved)
    {
      if Blank(op.id) {
        return MissingParameters;
      }
      if op.id !in plans {
        return PlanNotFound;
      }
      var plan := plans[op.id];
      if op.expectedVersion.Some? && op.expectedVersion.value != plan.version {
        return VersionConflict(plan.version);
      }
      if op.newTitle.Some? {
        if Blank(op.newTitle.value) {
          return EmptyTitle;
        }
        plan := plan.(title := TrimSpace(op.newTitle.value));
        plans := plans[op.id := plan];
      }
      if op.newStatus.Some? {
        if !ValidPlanStatus(op.newStatus.value) {
          assert plans == old(plans)[op.id := plan];
          return InvalidStatus;
        }
        plan := plan.(status := op.newStatus.value);
      }
      if op.newDescription.Some? {
        plan := plan.(description := op.newDescription.value);
      }
      if op.newContent.Some? {
        plan := plan.(content := op.newContent.value);
      }
      plan := plan.(version := plan.version + 1, updatedBy := op.agentID);
      plans := plans[op.id := plan];
      assert plans == old(plans)[op.id := plan];
      return Saved(saved);
    }

    /** The search loop shared by the three step handlers. */
    method IndexOfStep(steps: seq<PlanStep>, id: string) returns (i: nat)
      ensures i == FindStep(steps, id)
    {
      i := 0;
      while i < |steps|
        invariant 0 <= i <= |steps|
        invariant FindStep(steps, id) == i + FindStep(steps[i..], id)
      {
        if steps[i].id == id {
          return;
        }
        i := i + 1;
      }
    }

    method PlanStepUpdate(op: Op, saved: bool) returns (r: Result)
      requires op.StepUpdate?
      modifies `plans
      ensures (plans, r) == ApplyStepUpdate(old(plans), op, saved)
    {
      if op.id == "" || op.stepID == "" {
        return MissingParameters;
      }
      if op.id !in plans {
        return PlanNotFound;
      }
      var plan := plans[op.id];
      if op.expectedVersion.Some? && op.expectedVersion.value != plan.version {
        return VersionConflict(plan.version);
      }
      var i := IndexOfStep(plan.steps, op.stepID);
      if i == |plan.steps| {
        return StepNotFound;
      }
      var step := plan.steps[i];
      if op.newStatus.Some? {
        if !ValidStepStatus(op.newStatus.value) {
          return InvalidStatus;
        }
        step := step.(status := op.newStatus.value);
      }
      if op.newDescription.Some? {
        step := step.(description := op.newDescription.value);
      }
      if op.newNotes.Some? {
        step := step.(notes := op.newNotes.value);
      }
      if op.agentID != "" {
        step := step.(agentID := op.agentID);
      }
      plans := plans[op.id := plan.(steps := plan.steps[i := step], version := plan.version + 1,
                                   updatedBy := op.agentID)];
      return Saved(saved);
    }

    method PlanEvidence(op: Op, saved: bool) returns (r: Result)
      requires op.Evidence?
      modifies `plans
      ensures (plans, r) == ApplyEvidence(old(plans), op, saved)
    {
      if op.id == "" || op.stepID == "" || Blank(op.evidence) {
        return MissingParameters;
      }
      if op.id !in plans {
        return PlanNotFound;
      }
      var plan := plans[op.id];
      var i := IndexOfStep(plan.steps, op.stepID);
      if i == |plan.steps| {
        return StepNotFound;
      }
      var step := plan.steps[i];
      step := step.(evidence := step.evidence + [op.evidence]);
      plans := plans[op.id := plan.(steps := plan.steps[i := step])];
      return Saved(saved);
    }

    method PlanAssign(op: Op, saved: bool) returns (r: Result)
      requires op.Assign?
      modifies `plans
      ensures (plans, r) == ApplyAssign(old(plans), op, saved)
    {
      if op.id == "" || op.stepID == "" || Blank(op.assignee) {
        return MissingParameters;
      }
      if op.id !in plans {
        return PlanNotFound;
      }
      var plan := plans[op.id];
      if op.expectedVersion.Some? && op.expectedVersion.value != plan.version {
        return VersionConflict(plan.version);
      }
      var i := IndexOfStep(plan.steps, op.stepID);
      if i == |plan.steps| {
        return StepNotFound;
      }
      var step := plan.steps[i].(assignee := TrimSpace(op.assignee));
      plans := plans[op.id := plan.(steps := plan.steps[i := step], version := plan.version + 1)];
      return Saved(saved);
    }

    /** incompleteSteps and missingEvidence. */
    method Unresolved(steps: seq<PlanStep>) returns (incomplete: seq<string>, unproven: seq<string>)
      ensures incomplete == Incomplete(steps) && unproven == MissingEvidence(steps)
    {
      incomplete, unproven := [], [];
      for i := 0 to |steps|
        invariant incomplete == Incomplete(steps[..i]) && unproven == MissingEvidence(steps[..i])
      {
        assert steps[..i + 1][..i] == steps[..i];
        if steps[i].status != "completed" {
          incomplete := incomplete + [steps[i].id];
        }
        if steps[i].status == "completed" && |steps[i].evidence| == 0 {
          unproven := unproven + [steps[i].id];
        }
      }
      assert steps[..|steps|] == steps;
    }

    method PlanComplete(op: Op, saved: bool) returns (r: Result)
      requires op.Complete?
      modifies `plans
      ensures (plans, r) == ApplyComplete(old(plans), op, saved)
    {
      if op.id == "" {
        return MissingParameters;
      }
      if op.id !in plans {
        return PlanNotFound;
      }
      var plan := plans[op.id];
      var missing, missingEv := Unresolved(plan.steps);
      if |missing| > 0 {
        if Blank(op.overrideReason) {
          return StepsIncomplete(missing);
        }
        plan := plan.(completionOverride := op.overrideReason);
        plans := plans[op.id := plan];
      }
      if |missingEv| > 0 && Blank(op.overrideReason) {
        return EvidenceRequired(missingEv);
      }
      plan := plan.(status := "completed", version := plan.version + 1);
      plans := plans[op.id := plan];
      assert plans == old(plans)[op.id := plan];
      return Saved(saved);
    }
  }

  // ---------- What the operations do ----------

  /** The first step with the ID is at k. */
  predicate FirstStep(steps: seq<PlanStep>, id: string, k: nat) {
    k < |steps| && steps[k].id == id && forall j :: 0 <= j < k ==> steps[j].id != id
  }

  lemma {:induction false} FirstStepIsFound(steps: seq<PlanStep>, id: string, k: nat)
    ensures FirstStep(steps, id, k) <==> k < |steps| && FindStep(steps, id) == k
  {
    var i := FindStep(steps, id);
    assert i < |steps| ==> steps[i].id == id;
  }

  function Given(o: Option<string>, kept: string): string {
    match o
    case None => kept
    case Some(v) => v
  }

  /** Every other step, and every field of the plan that is not named, is as it prior. */
  predicate OnlyStepDiffers(before: Plan, after: Plan, k: nat)
    requires k < |before.steps|
  {
    && |after.steps| == |before.steps|
    && (forall j :: 0 <= j < |before.steps| && j != k ==> after.steps[j] == before.steps[j])
    && after.id == before.id && after.title == before.title && after.description == before.description
    && after.content == before.content && after.status == before.status && after.createdBy == before.createdBy
    && after.completionOverride == before.completionOverride
  }

  /** Which calls fail before they look at the plan, and which at its version. */
  predicate LacksParameters(op: Op) {
    match op
    case Create(_, _, _, _, _, _) => false
    case Update(id, _, _, _, _, _, _) => TrimSpace(id) == ""
    case StepUpdate(id, stepID, _, _, _, _, _) => id == "" || stepID == ""
    case Evidence(id, stepID, evidence) => id == "" || stepID == "" || TrimSpace(evidence) == ""
    case Assign(id, stepID, assignee, _) => id == "" || stepID == "" || TrimSpace(assignee) == ""
    case Complete(id, _) => id == ""
  }

  predicate ExpectsAnother(op: Op, version: int) {
    (op.Update? || op.StepUpdate? || op.Assign?) && op.expectedVersion.Some? && op.expectedVersion.value != version
  }

  /** The order in which a call is refused: parameters, plan, version. */
  lemma {:induction false} RefusalsInOrder(plans: PlanMap, op: Op, saved: bool)
    requires !op.Create?
    ensures Apply(plans, op, saved).1 == MissingParameters <==> LacksParameters(op)
    ensures Apply(plans, op, saved).1 == PlanNotFound <==> !LacksParameters(op) && op.id !in plans
    ensures Apply(plans, op, saved).1.VersionConflict? <==>
              !LacksParameters(op) && op.id in plans && ExpectsAnother(op, plans[op.id].version)
    ensures Apply(plans, op, saved).1.VersionConflict? ==> Apply(plans, op, saved).1.current == plans[op.id].version
  {
    hide TrimSpace, ValidPlanStatus, ValidStepStatus, UpdatedStep, Incomplete, MissingEvidence;
  }

  predicate PassesFirstChecks(plans: PlanMap, op: Op) {
    !LacksParameters(op) && op.id in plans && !ExpectsAnother(op, plans[op.id].version)
  }

  /** plan_update: the result, and each field of the plan. */
  lemma {:induction false} UpdateSetsWhatIsGiven(plans: PlanMap, op: Op, saved: bool)
    requires op.Update? && PassesFirstChecks(plans, op)
    ensures var (now, r) := Apply(plans, op, saved);
            var before := plans[op.id];
            var badTitle := op.newTitle.Some? && TrimSpace(op.newTitle.value) == "";
            var badStatus := op.newStatus.Some? && op.newStatus.value !in {"active", "paused", "completed", "archived"};
            && r == (if badTitle then EmptyTitle else if badStatus then InvalidStatus
                     else if saved then Done else NotPersisted)
            && op.id in now && now.Keys == plans.Keys
            && var after := now[op.id];
               && after.id == before.id && after.createdBy == before.createdBy && after.steps == before.steps
               && after.completionOverride == before.completionOverride
               && after.title == (if op.newTitle.Some? && !badTitle then TrimSpace(op.newTitle.value) else before.title)
               && (badTitle || badStatus ==> after == before.(title := after.title))
               && (!badTitle && !badStatus ==>
                     && after.status == Given(op.newStatus, before.status)
                     && after.description == Given(op.newDescription, before.description)
                     && after.content == Given(op.newContent, before.content)
                     && after.version == before.version + 1 && after.updatedBy == op.agentID)
  {
    hide TrimSpace;
  }

  /** plan_step_update on an existing step. */
  lemma {:induction false} StepUpdateSetsWhatIsGiven(plans: PlanMap, op: Op, saved: bool, k: nat)
    requires op.StepUpdate? && PassesFirstChecks(plans, op) && FirstStep(plans[op.id].steps, op.stepID, k)
    requires op.newStatus.Some? ==> op.newStatus.value in {"pending", "in_progress", "completed", "blocked"}
    ensures op.id in Apply(plans, op, saved).0
            && OnlyStepDiffers(plans[op.id], Apply(plans, op, saved).0[op.id], k)
    ensures var before, after := plans[op.id], Apply(plans, op, saved).0[op.id];
            var prior, next := before.steps[k], after.steps[k];
            && Apply(plans, op, saved).1 == (if saved then Done else NotPersisted)
            && after.version == before.version + 1 && after.updatedBy == op.agentID
            && next.status == Given(op.newStatus, prior.status)
            && next.description == Given(op.newDescription, prior.description)
            && next.notes == Given(op.newNotes, prior.notes)
            && next.agentID == (if op.agentID == "" then prior.agentID else op.agentID)
            && next.id == prior.id && next.title == prior.title && next.assignee == prior.assignee
            && next.evidence == prior.evidence
  {
    hide TrimSpace;
    FirstStepIsFound(plans[op.id].steps, op.stepID, k);
    hide FindStep;
  }

  /** plan_evidence and plan_assign on an existing step. */
  lemma {:induction false} EvidenceAndAssigneeAreStored(plans: PlanMap, op: Op, saved: bool, k: nat)
    requires op.Evidence? || op.Assign?
    requires PassesFirstChecks(plans, op) && FirstStep(plans[op.id].steps, op.stepID, k)
    ensures op.id in Apply(plans, op, saved).0
            && OnlyStepDiffers(plans[op.id], Apply(plans, op, saved).0[op.id], k)
    ensures var before, after := plans[op.id], Apply(plans, op, saved).0[op.id];
            var prior, next := before.steps[k], after.steps[k];
            && Apply(plans, op, saved).1 == (if saved then Done else NotPersisted)
            && after.updatedBy == before.updatedBy
            && (op.Evidence? ==>
                  after.version == before.version && next == prior.(evidence := prior.evidence + [op.evidence]))
            && (op.Assign? ==>
                  after.version == before.version + 1 && next == prior.(assignee := TrimSpace(op.assignee)))
  {
    hide TrimSpace;
    FirstStepIsFound(plans[op.id].steps, op.stepID, k);
    hide FindStep;
  }

  /** When a call on a step is refused for the step, or for its new status. */
  lemma {:induction false} StepRefusals(plans: PlanMap, op: Op, saved: bool)
    requires op.StepUpdate? || op.Evidence? || op.Assign?
    requires PassesFirstChecks(plans, op)
    ensures Apply(plans, op, saved).1 == StepNotFound <==>
              forall j :: 0 <= j < |plans[op.id].steps| ==> plans[op.id].steps[j].id != op.stepID
    ensures Apply(plans, op, saved).1 == InvalidStatus <==>
              && op.StepUpdate? && op.newStatus.Some?
              && op.newStatus.value !in {"pending", "in_progress", "completed", "blocked"}
              && exists j :: 0 <= j < |plans[op.id].steps| && plans[op.id].steps[j].id == op.stepID
  {
    hide TrimSpace, UpdatedStep;
  }

  /** What the two scans of plan_complete list: positions in order, by status and evidence. */
  lemma {:induction false} UnresolvedOfChain(a: seq<PlanStep>, b: seq<PlanStep>, step: PlanStep)
    ensures Incomplete(a + b) == Incomplete(a) + Incomplete(b)
    ensures MissingEvidence(a + b) == MissingEvidence(a) + MissingEvidence(b)
    ensures Incomplete([step]) == if step.status == "completed" then [] else [step.id]
    ensures MissingEvidence([step]) == if step.status == "completed" && |step.evidence| == 0 then [step.id] else []
  {
    assert [step][..0] == [] && Incomplete([]) == [] && MissingEvidence([]) == [];
    if b == [] {
      assert a + b == a;
    } else {
      var init, last := b[..|b| - 1], b[|b| - 1];
      assert (a + b)[..|a + b| - 1] == a + init && (a + b)[|a + b| - 1] == last;
      UnresolvedOfChain(a, init, step);
    }
  }

  /** plan_complete: the gates in order, and the plan it leaves. */
  lemma {:induction false} CompleteClosesThePlan(plans: PlanMap, op: Op, saved: bool)
    requires op.Complete? && PassesFirstChecks(plans, op)
    ensures var (now, r) := Apply(plans, op, saved);
            var before := plans[op.id];
            var forced := TrimSpace(op.overrideReason) != "";
            && (r.StepsIncomplete? <==> !forced && Incomplete(before.steps) != [])
            && (r.EvidenceRequired? <==>
                  !forced && Incomplete(before.steps) == [] && MissingEvidence(before.steps) != [])
            && (r.StepsIncomplete? ==> r.ids == Incomplete(before.steps))
            && (r.EvidenceRequired? ==> r.ids == MissingEvidence(before.steps))
            && (r.StepsIncomplete? || r.EvidenceRequired? ==> now == plans)
            && (!r.StepsIncomplete? && !r.EvidenceRequired? ==>
                  && r == (if saved then Done else NotPersisted)
                  && op.id in now
                  && now[op.id] == before.(status := "completed", version := before.version + 1,
                                           completionOverride := now[op.id].completionOverride))
  {
    hide TrimSpace, Incomplete, MissingEvidence;
  }

  function ValueOf(digits: string): int {
    if digits == "" then 0 else 10 * ValueOf(digits[..|digits| - 1]) + (digits[|digits| - 1] as int - '0' as int)
  }

  /** The number in a generated step ID is decimal, without leading zeros. */
  lemma {:induction false} DigitsAreDecimal(n: nat)
    ensures Digits(n) != "" && ValueOf(Digits(n)) == n
    ensures forall c :: c in Digits(n) ==> '0' <= c <= '9'
    ensures n > 0 ==> Digits(n)[0] != '0'
  {
    if n < 10 {
      assert Digits(n)[..0] == "";
      assert ValueOf("") == 0;
    } else {
      DigitsAreDecimal(n / 10);
      assert Digits(n)[..|Digits(n)| - 1] == Digits(n / 10);
    }
  }

  /** newPlan: refused without titles; else a fresh active plan at version 1 whose steps have
      trimmed titles, an ID each and a valid status. */
  lemma {:induction false} CreateStoresAFreshPlan(plans: PlanMap, op: Op, saved: bool, k: nat)
    requires op.Create? && k < |op.steps|
    requires TrimSpace(op.title) != "" && forall i :: 0 <= i < |op.steps| ==> TrimSpace(op.steps[i].title) != ""
    ensures var (now, r) := Apply(plans, op, saved);
            && r == (if saved then Done else NotPersisted) && op.id in now && |now[op.id].steps| == |op.steps|
            && var plan, given, step := now[op.id], op.steps[k], now[op.id].steps[k];
               && plan.id == op.id && plan.title == TrimSpace(op.title) && plan.description == op.description
               && plan.content == op.content && plan.status == "active" && plan.version == 1
               && plan.createdBy == plan.updatedBy == op.agentID && plan.completionOverride == ""
               && step.title == TrimSpace(given.title)
               && step.id == (if given.id == "" then "step-" + Digits(k + 1) else given.id)
               && step.status == (if given.status in {"pending", "in_progress", "completed", "blocked"}
                                  then given.status else "pending")
               && step.description == given.description && step.notes == given.notes
               && step.assignee == given.assignee && step.agentID == given.agentID && step.evidence == given.evidence
  {
    hide TrimSpace, Digits;
    NoUntitledStep(op.steps, 0);
  }

  lemma {:induction false} NoUntitledStep(steps: seq<PlanStep>, from: nat)
    requires forall i :: 0 <= i < |steps| ==> TrimSpace(steps[i].title) != ""
    ensures UntitledStep(steps, from) == None
    decreases |steps| - from
  {
    hide TrimSpace;
    if from >= |steps| {
    } else {
      NoUntitledStep(steps, from + 1);
    }
  }

  /** Otherwise the plan title is reported first, then the first step without one. */
  lemma {:induction false} CreateReportsMissingTitles(plans: PlanMap, op: Op, saved: bool, k: nat)
    requires op.Create?
    ensures TrimSpace(op.title) == "" ==> Apply(plans, op, saved) == (plans, EmptyTitle)
    ensures TrimSpace(op.title) != "" && k < |op.steps| && TrimSpace(op.steps[k].title) == ""
            && (forall i :: 0 <= i < k ==> TrimSpace(op.steps[i].title) != "")
            ==> Apply(plans, op, saved) == (plans, StepTitleRequired(k + 1))
  {
    hide TrimSpace;
    if k < |op.steps| && TrimSpace(op.steps[k].title) == ""
       && (forall i :: 0 <= i < k ==> TrimSpace(op.steps[i].title) != "") {
      FirstUntitled(op.steps, 0, k);
    }
  }

  lemma {:induction false} FirstUntitled(steps: seq<PlanStep>, from: nat, k: nat)
    requires from <= k < |steps| && TrimSpace(steps[k].title) == ""
    requires forall i :: 0 <= i < k ==> TrimSpace(steps[i].title) != ""
    ensures UntitledStep(steps, from) == Some(k + 1)
    decreases k - from
  {
    hide TrimSpace;
    if from == k {
    } else {
      FirstUntitled(steps, from + 1, k);
    }
  }

  // ---------- Runs ----------

  datatype Event = Event(op: Op, saved: bool)

  function Run(plans: PlanMap, events: seq<Event>): PlanMap {
    if events == [] then plans
    else
      var last := events[|events| - 1];
      Apply(Run(plans, events[..|events| - 1]), last.op, last.saved).0
  }

  /** Plan IDs are clock readings: a new plan never takes the ID of a stored one. */
  ghost predicate FreshIDs(plans: PlanMap, events: seq<Event>) {
    forall k :: 0 <= k < |events| && events[k].op.Create? ==> events[k].op.id !in Run(plans, events[..k])
  }

  /** What one operation may do to a plan that exists already. */
  ghost predicate Evolves(before: Plan, after: Plan) {
    && before.version <= after.version
    && |before.steps| == |after.steps|
    && forall i :: 0 <= i < |before.steps| ==> before.steps[i].evidence <= after.steps[i].evidence
  }

  lemma SameStepsEvolve(before: Plan, after: Plan)
    requires after.steps == before.steps && before.version <= after.version
    ensures Evolves(before, after)
  {
  }

  lemma OneStepEvolves(before: Plan, after: Plan, i: nat, step: PlanStep)
    requires i < |before.steps| && after.steps == before.steps[i := step]
    requires before.steps[i].evidence <= step.evidence && before.version <= after.version
    ensures Evolves(before, after)
  {
  }

  lemma OthersAreUntouched(plans: PlanMap, op: Op, saved: bool, id: string)
    requires id in plans && op.id != id
    ensures id in Apply(plans, op, saved).0 && Apply(plans, op, saved).0[id] == plans[id]
  {
    hide UntitledStep, NormalizedSteps, Incomplete, MissingEvidence, ValidPlanStatus, ValidStepStatus, TrimSpace,
      FindStep, UpdatedStep, Conflicts, Or;
  }

  lemma StepOperationsEvolve(plans: PlanMap, op: Op, saved: bool)
    requires op.id in plans && (op.StepUpdate? || op.Evidence? || op.Assign?)
    ensures op.id in Apply(plans, op, saved).0
    ensures Evolves(plans[op.id], Apply(plans, op, saved).0[op.id])
  {
    hide ValidStepStatus, TrimSpace, Evolves, FindStep;
    var before, after := plans[op.id], Apply(plans, op, saved).0[op.id];
    var i := FindStep(before.steps, op.stepID);
    if after == before {
      SameStepsEvolve(before, after);
    } else {
      OneStepEvolves(before, after, i, after.steps[i]);
    }
  }

  lemma PlanOperationsEvolve(plans: PlanMap, op: Op, saved: bool)
    requires op.id in plans && (op.Update? || op.Complete?)
    ensures op.id in Apply(plans, op, saved).0
    ensures Evolves(plans[op.id], Apply(plans, op, saved).0[op.id])
  {
    hide Incomplete, MissingEvidence, ValidPlanStatus, TrimSpace, Evolves;
    SameStepsEvolve(plans[op.id], Apply(plans, op, saved).0[op.id]);
  }

  lemma OperationsEvolvePlans(plans: PlanMap, op: Op, saved: bool, id: string)
    requires id in plans && !(op.Create? && op.id == id)
    ensures id in Apply(plans, op, saved).0
    ensures Evolves(plans[id], Apply(plans, op, saved).0[id])
  {
    hide Apply, Evolves;
    if op.id != id {
      OthersAreUntouched(plans, op, saved, id);
      SameStepsEvolve(plans[id], plans[id]);
    } else if op.Update? || op.Complete? {
      PlanOperationsEvolve(plans, op, saved);
    } else {
      StepOperationsEvolve(plans, op, saved);
    }
  }

  lemma EvolvingIsTransitive(a: Plan, b: Plan, c: Plan)
    requires Evolves(a, b) && Evolves(b, c)
    ensures Evolves(a, c)
  {
    forall i | 0 <= i < |a.steps|
      ensures a.steps[i].evidence <= c.steps[i].evidence
    {
      assert b.steps[i].evidence <= c.steps[i].evidence;
    }
  }

  /** Over every run with fresh IDs: versions never decrease, steps never disappear and
      evidence is never taken back. */
  lemma {:induction false} RunsEvolvePlans(plans: PlanMap, events: seq<Event>, j: nat, k: nat, id: string)
    requires FreshIDs(plans, events) && j <= k <= |events|
    requires id in Run(plans, events[..j])
    ensures id in Run(plans, events[..k])
    ensures Evolves(Run(plans, events[..j])[id], Run(plans, events[..k])[id])
  {
    hide Apply, Evolves, Run;
    if j == k {
      SameStepsEvolve(Run(plans, events[..j])[id], Run(plans, events[..j])[id]);
    } else {
      RunsEvolvePlans(plans, events, j, k - 1, id);
      RunStep(plans, events, k - 1);
      var now := Run(plans, events[..k - 1]);
      OperationsEvolvePlans(now, events[k - 1].op, events[k - 1].saved, id);
      EvolvingIsTransitive(Run(plans, events[..j])[id], now[id], Run(plans, events[..k])[id]);
    }
  }

  lemma RunStep(plans: PlanMap, events: seq<Event>, k: nat)
    requires k < |events|
    ensures Run(plans, events[..k + 1]) == Apply(Run(plans, events[..k]), events[k].op, events[k].saved).0
  {
    assert events[..k + 1][..k] == events[..k];
  }

  // ---------- Optimistic locking ----------

  predicate Expects(op: Op, id: string, version: int) {
    (op.Update? || op.StepUpdate? || op.Assign?) && op.id == id && op.expectedVersion == Some(version)
  }

  /** A versioned operation takes effect only on the version it expects, and moves past it. */
  lemma VersionedOperation(plans: PlanMap, op: Op, saved: bool, id: string, version: int)
    requires Expects(op, id, version) && Applied(Apply(plans, op, saved).1)
    ensures id in plans && plans[id].version == version
    ensures id in Apply(plans, op, saved).0 && Apply(plans, op, saved).0[id].version == version + 1
  {
  }

  /** However agents interleave, of all calls that expect the same version of a plan at most
      one is carried out in full. */
  lemma {:induction false} OneSuccessPerVersion(plans: PlanMap, events: seq<Event>, j: nat, k: nat, id: string,
                                                version: int)
    requires FreshIDs(plans, events) && j < k < |events|
    requires Expects(events[j].op, id, version) && Expects(events[k].op, id, version)
    requires Applied(Apply(Run(plans, events[..j]), events[j].op, events[j].saved).1)
    ensures !Applied(Apply(Run(plans, events[..k]), events[k].op, events[k].saved).1)
  {
    hide Apply, Expects;
    VersionedOperation(Run(plans, events[..j]), events[j].op, events[j].saved, id, version);
    RunStep(plans, events, j);
    RunsEvolvePlans(plans, events, j + 1, k, id);
    if Applied(Apply(Run(plans, events[..k]), events[k].op, events[k].saved).1) {
      VersionedOperation(Run(plans, events[..k]), events[k].op, events[k].saved, id, version);
    }
  }

  /** The call leaves a stored plan different from before. */
  predicate Changes(plans: PlanMap, op: Op, saved: bool, id: string) {
    id in plans && id in Apply(plans, op, saved).0 && Apply(plans, op, saved).0[id] != plans[id]
  }

  /** The update stores a new title and is then rejected for its status, the version kept. */
  predicate RetitlesThenRejects(plan: Plan, op: Op) {
    && op.Update? && !Blank(op.id) && !Conflicts(plan, op.expectedVersion)
    && op.newTitle.Some? && !Blank(op.newTitle.value) && TrimSpace(op.newTitle.value) != plan.title
    && op.newStatus.Some? && !ValidPlanStatus(op.newStatus.value)
  }

  predicate RecordsEvidence(plan: Plan, op: Op) {
    && op.Evidence? && op.id != "" && op.stepID != "" && !Blank(op.evidence)
    && FindStep(plan.steps, op.stepID) < |plan.steps|
  }

  lemma EvidenceIsNew(plans: PlanMap, op: Op, saved: bool)
    requires op.Evidence? && op.id in plans
    ensures Apply(plans, op, saved).0[op.id] != plans[op.id] <==> RecordsEvidence(plans[op.id], op)
  {
    hide TrimSpace;
    if RecordsEvidence(plans[op.id], op) {
      var i := FindStep(plans[op.id].steps, op.stepID);
      assert Apply(plans, op, saved).0[op.id].steps[i].evidence == plans[op.id].steps[i].evidence + [op.evidence];
      assert |plans[op.id].steps[i].evidence + [op.evidence]| != |plans[op.id].steps[i].evidence|;
    }
  }

  /** "Version increments on every mutation": an operation changes a stored plan without a
      new version exactly when it records evidence, or is an update that is rejected for its
      status after it has already replaced the title. */
  lemma {:induction false} ChangesWithoutNewVersion(plans: PlanMap, op: Op, saved: bool)
    requires op.id in plans && !op.Create?
    ensures Apply(plans, op, saved).0[op.id] != plans[op.id]
            && Apply(plans, op, saved).0[op.id].version == plans[op.id].version
       <==> RecordsEvidence(plans[op.id], op) || RetitlesThenRejects(plans[op.id], op)
  {
    hide Incomplete, MissingEvidence, ValidPlanStatus, ValidStepStatus, TrimSpace;
    if op.Evidence? {
      EvidenceIsNew(plans, op, saved);
    }
  }

  /** A call that reports a failure (a version conflict, a missing or unknown ID, an invalid
      value, a gate) leaves every plan as it was, with exactly that one exception. */
  lemma {:induction false} FailuresChangeNothingElse(plans: PlanMap, op: Op, saved: bool)
    requires !Applied(Apply(plans, op, saved).1)
    ensures Apply(plans, op, saved).0 == plans <==> !(op.id in plans && RetitlesThenRejects(plans[op.id], op))
    ensures Apply(plans, op, saved).1.VersionConflict? ==> Apply(plans, op, saved).0 == plans
  {
    hide UntitledStep, NormalizedSteps, Incomplete, MissingEvidence, ValidPlanStatus, ValidStepStatus, TrimSpace;
    if op.Update? && op.id in plans {
      var plan := plans[op.id];
      assert plans[op.id := plan] == plans;
      assert plan.(title := plan.title) == plan;
    }
  }

  /** A call that expects a version changes the plan only at that version, and then moves the
      plan past it or has only replaced the title of an update it rejects. */
  lemma VersionedChange(plans: PlanMap, op: Op, saved: bool, id: string, version: int)
    requires Expects(op, id, version) && Changes(plans, op, saved, id)
    ensures plans[id].version == version
    ensures Apply(plans, op, saved).0[id].version == version + 1 || RetitlesThenRejects(plans[id], op)
  {
    hide ValidPlanStatus, ValidStepStatus, TrimSpace, FindStep;
  }

  /** Optimistic locking, exactly: two calls that expect one version both change the plan only
      if the earlier is an update that was rejected for its status. */
  lemma {:induction false} TwoChangesOfOneVersion(plans: PlanMap, events: seq<Event>, j: nat, k: nat, id: string,
                                                  version: int)
    requires FreshIDs(plans, events) && j < k < |events|
    requires Expects(events[j].op, id, version) && Expects(events[k].op, id, version)
    requires Changes(Run(plans, events[..j]), events[j].op, events[j].saved, id)
    requires Changes(Run(plans, events[..k]), events[k].op, events[k].saved, id)
    ensures RetitlesThenRejects(Run(plans, events[..j])[id], events[j].op)
  {
    hide Apply, Expects, RetitlesThenRejects, Run;
    VersionedChange(Run(plans, events[..j]), events[j].op, events[j].saved, id, version);
    VersionedChange(Run(plans, events[..k]), events[k].op, events[k].saved, id, version);
    RunStep(plans, events, j);
    RunsEvolvePlans(plans, events, j + 1, k, id);
  }

  /** Such a pair: both calls expect the version they find, both change the plan, and the
      state is the one the second call alone would have produced. */
  lemma RejectedTitleIsOverwritten(plans: PlanMap, id: string, mine: string, yours: string, saved: bool)
    returns (first: Op, second: Op)
    requires id in plans && !Blank(id) && !Blank(mine) && !Blank(yours) && TrimSpace(mine) != plans[id].title
    ensures Expects(first, id, plans[id].version) && Expects(second, id, plans[id].version)
    ensures Changes(plans, first, saved, id) && Apply(plans, first, saved).0[id].title == TrimSpace(mine)
    ensures Changes(Apply(plans, first, saved).0, second, saved, id)
    ensures Apply(Apply(plans, first, saved).0, second, saved) == Apply(plans, second, saved)
  {
    hide TrimSpace;
    first := Update(id, Some(mine), None, Some("bogus"), None, Some(plans[id].version), "");
    second := Update(id, Some(yours), None, None, None, Some(plans[id].version), "");
    var after := Apply(plans, first, saved).0;
    assert after == plans[id := plans[id].(title := TrimSpace(mine))];
    assert Apply(after, second, saved).0 == Apply(plans, second, saved).0;
  }

  function Unevidenced(steps: seq<PlanStep>): seq<PlanStep> {
    seq(|steps|, i requires 0 <= i < |steps| => steps[i].(evidence := []))
  }

  /** What a version number pins down: everything but title and evidence. */
  function Core(plan: Plan): Plan {
    plan.(title := "", steps := Unevidenced(plan.steps))
  }

  lemma EvidenceKeepsCore(plan: Plan, i: nat, evidence: seq<string>)
    requires i < |plan.steps|
    ensures Core(plan.(steps := plan.steps[i := plan.steps[i].(evidence := evidence)])) == Core(plan)
  {
    var after := plan.steps[i := plan.steps[i].(evidence := evidence)];
    assert Unevidenced(after) == Unevidenced(plan.steps);
  }

  /** One operation that keeps the version keeps the core, and the title unless rejected. */
  lemma SameVersionStep(plans: PlanMap, op: Op, saved: bool, id: string)
    requires id in plans && !(op.Create? && op.id == id)
    requires id in Apply(plans, op, saved).0 && Apply(plans, op, saved).0[id].version == plans[id].version
    ensures Core(Apply(plans, op, saved).0[id]) == Core(plans[id])
    ensures Apply(plans, op, saved).0[id].title != plans[id].title ==>
              op.id == id && RetitlesThenRejects(plans[id], op)
  {
    hide Core, Apply, TrimSpace, ValidPlanStatus;
    if op.id != id {
      OthersAreUntouched(plans, op, saved, id);
    } else if Apply(plans, op, saved).0[id] != plans[id] {
      ChangesWithoutNewVersion(plans, op, saved);
      if RecordsEvidence(plans[id], op) {
        RecordingKeepsCore(plans, op, saved);
      } else {
        RetitlingKeepsCore(plans, op, saved);
      }
    }
  }

  lemma RecordingKeepsCore(plans: PlanMap, op: Op, saved: bool)
    requires op.id in plans && RecordsEvidence(plans[op.id], op)
    ensures op.id in Apply(plans, op, saved).0
    ensures Core(Apply(plans, op, saved).0[op.id]) == Core(plans[op.id])
    ensures Apply(plans, op, saved).0[op.id].title == plans[op.id].title
  {
    hide Core, TrimSpace;
    var i := FindStep(plans[op.id].steps, op.stepID);
    EvidenceKeepsCore(plans[op.id], i, plans[op.id].steps[i].evidence + [op.evidence]);
  }

  lemma RetitlingKeepsCore(plans: PlanMap, op: Op, saved: bool)
    requires op.id in plans && RetitlesThenRejects(plans[op.id], op)
    ensures op.id in Apply(plans, op, saved).0
    ensures Core(Apply(plans, op, saved).0[op.id]) == Core(plans[op.id])
  {
    hide TrimSpace, ValidPlanStatus;
  }

  /** Over every run a version number determines the plan up to evidence, and up to a title
      that a rejected update left in between. */
  lemma {:induction false} EqualVersionsMeanEqualPlans(plans: PlanMap, events: seq<Event>, j: nat, k: nat, id: string)
    requires FreshIDs(plans, events) && j <= k <= |events|
    requires id in Run(plans, events[..j]) && id in Run(plans, events[..k])
    requires Run(plans, events[..j])[id].version == Run(plans, events[..k])[id].version
    ensures Core(Run(plans, events[..j])[id]) == Core(Run(plans, events[..k])[id])
    ensures Run(plans, events[..j])[id].title != Run(plans, events[..k])[id].title ==>
              exists i :: j <= i < k && id in Run(plans, events[..i]) && events[i].op.id == id
                          && RetitlesThenRejects(Run(plans, events[..i])[id], events[i].op)
  {
    hide Apply, Core, Run, RetitlesThenRejects;
    if j == k {
    } else {
      RunsEvolvePlans(plans, events, j, k - 1, id);
      RunsEvolvePlans(plans, events, k - 1, k, id);
      EqualVersionsMeanEqualPlans(plans, events, j, k - 1, id);
      RunStep(plans, events, k - 1);
      SameVersionStep(Run(plans, events[..k - 1]), events[k - 1].op, events[k - 1].saved, id);
    }
  }

  // ---------- The evidence gate ----------

  ghost predicate AllEvidenced(steps: seq<PlanStep>) {
    forall i :: 0 <= i < |steps| ==> steps[i].evidence != []
  }

  lemma {:induction false} NothingUnresolvedMeansEvidence(steps: seq<PlanStep>)
    requires Incomplete(steps) == [] && MissingEvidence(steps) == []
    ensures AllEvidenced(steps)
  {
    if steps == [] {
    } else {
      var last := steps[|steps| - 1];
      assert last.status == "completed" && last.evidence != [];
      NothingUnresolvedMeansEvidence(steps[..|steps| - 1]);
    }
  }

  /** A plan that plan_complete closes without an override has evidence on every step, then
      and in every later state of every run. */
  lemma {:induction false} CompletedWithoutOverrideKeepsEvidence(plans: PlanMap, events: seq<Event>, j: nat, k: nat)
    requires FreshIDs(plans, events) && j < k <= |events|
    requires events[j].op.Complete? && Blank(events[j].op.overrideReason)
    requires Applied(Apply(Run(plans, events[..j]), events[j].op, events[j].saved).1)
    ensures var id := events[j].op.id; id in Run(plans, events[..k]) && AllEvidenced(Run(plans, events[..k])[id].steps)
  {
    var op := events[j].op;
    var before := Run(plans, events[..j]);
    assert op.id in before;
    NothingUnresolvedMeansEvidence(before[op.id].steps);
    RunStep(plans, events, j);
    assert AllEvidenced(Run(plans, events[..j + 1])[op.id].steps);
    RunsEvolvePlans(plans, events, j + 1, k, op.id);
    var closed, now := Run(plans, events[..j + 1])[op.id].steps, Run(plans, events[..k])[op.id].steps;
    assert forall i :: 0 <= i < |closed| ==> closed[i].evidence <= now[i].evidence;
  }

  predicate CompletionPasses(plan: Plan, op: Op) {
    && op.Complete? && op.id != ""
    && (!Blank(op.overrideReason) || (Incomplete(plan.steps) == [] && MissingEvidence(plan.steps) == []))
  }

  /** A plan_update that sets "completed" and passes the handler's own checks, none of which
      looks at steps or evidence. */
  predicate UpdateCompletes(plan: Plan, op: Op) {
    && op.Update? && !Blank(op.id) && !Conflicts(plan, op.expectedVersion)
    && (op.newTitle.Some? ==> !Blank(op.newTitle.value)) && op.newStatus == Some("completed")
  }

  /** The gate guards plan_complete only: an open plan becomes "completed" exactly when
      plan_complete passes its gate or a plan_update walks around it. */
  lemma UpdateBypassesTheGate(plans: PlanMap, op: Op, saved: bool)
    requires op.id in plans && !op.Create? && plans[op.id].status != "completed"
    ensures Apply(plans, op, saved).0[op.id].status == "completed"
       <==> CompletionPasses(plans[op.id], op) || UpdateCompletes(plans[op.id], op)
    ensures Apply(plans, op, saved).0[op.id].status == "completed" && !op.Complete?
       <==> UpdateCompletes(plans[op.id], op)
  {
    hide Incomplete, MissingEvidence, TrimSpace, FindStep;
  }

  /** Any open plan can be closed that way, whatever its steps and evidence. */
  lemma AnyPlanCanBeClosedUnproven(plans: PlanMap, id: string, agentID: string, saved: bool)
    requires id in plans && !Blank(id)
    ensures var op := Update(id, None, None, Some("completed"), None, None, agentID);
            && UpdateCompletes(plans[id], op)
            && Apply(plans, op, saved).0[id].status == "completed"
            && Apply(plans, op, saved).0[id].steps == plans[id].steps
  {
  }

  /** `op` closes an open plan that lacks evidence: an update around the gate, or an override. */
  ghost predicate ClosesUnproven(plans: PlanMap, op: Op, id: string) {
    && op.id == id && id in plans && plans[id].status != "completed" && !AllEvidenced(plans[id].steps)
    && (UpdateCompletes(plans[id], op) || (CompletionPasses(plans[id], op) && !Blank(op.overrideReason)))
  }

  lemma NewPlansAreActive(plans: PlanMap, op: Op, saved: bool, id: string)
    requires id !in plans && id in Apply(plans, op, saved).0
    ensures op.Create? && op.id == id && Apply(plans, op, saved).0[id].status == "active"
  {
    hide UntitledStep, NormalizedSteps, Incomplete, MissingEvidence, ValidPlanStatus, ValidStepStatus, TrimSpace,
      FindStep, UpdatedStep, Conflicts, Or;
  }

  lemma EvidenceStays(before: Plan, after: Plan)
    requires Evolves(before, after) && AllEvidenced(before.steps)
    ensures AllEvidenced(after.steps)
  {
    forall i | 0 <= i < |after.steps|
      ensures after.steps[i].evidence != []
    {
      assert before.steps[i].evidence <= after.steps[i].evidence;
    }
  }

  lemma ClosingStep(plans: PlanMap, op: Op, saved: bool, id: string)
    requires id in plans && !(op.Create? && op.id == id) && id in Apply(plans, op, saved).0
    requires plans[id].status != "completed" && Apply(plans, op, saved).0[id].status == "completed"
    requires !AllEvidenced(plans[id].steps)
    ensures ClosesUnproven(plans, op, id)
  {
    hide Apply, Incomplete, MissingEvidence, TrimSpace, AllEvidenced;
    if op.id != id {
      OthersAreUntouched(plans, op, saved, id);
    } else {
      UpdateBypassesTheGate(plans, op, saved);
      if CompletionPasses(plans[id], op) && Blank(op.overrideReason) {
        NothingUnresolvedMeansEvidence(plans[id].steps);
      }
    }
  }

  /** Over every run: a plan is "completed" with evidence missing only if some earlier call
      closed it past the gate, by plan_update or by an override. */
  lemma {:induction false} UnprovenPlansWereForced(plans: PlanMap, events: seq<Event>, k: nat, id: string)
    requires FreshIDs(plans, events) && k <= |events|
    requires id in plans ==> plans[id].status != "completed"
    requires id in Run(plans, events[..k]) && Run(plans, events[..k])[id].status == "completed"
    requires !AllEvidenced(Run(plans, events[..k])[id].steps)
    ensures exists j :: 0 <= j < k && ClosesUnproven(Run(plans, events[..j]), events[j].op, id)
  {
    hide Apply, AllEvidenced, ClosesUnproven, Evolves;
    if k == 0 {
      assert false;
    } else {
      hide Run;
      var before, e := Run(plans, events[..k - 1]), events[k - 1];
      RunStep(plans, events, k - 1);
      if id !in before {
        NewPlansAreActive(before, e.op, e.saved, id);
      } else {
        OperationsEvolvePlans(before, e.op, e.saved, id);
        if AllEvidenced(before[id].steps) {
          EvidenceStays(before[id], Apply(before, e.op, e.saved).0[id]);
        } else if before[id].status == "completed" {
          UnprovenPlansWereForced(plans, events, k - 1, id);
        } else {
          ClosingStep(before, e.op, e.saved, id);
        }
      }
    }
  }

  // ---------- The completion override ----------

  /** completion_override is documented for plans forced past unresolved steps or missing
      evidence.  A completion leaves its reason there exactly when a step was incomplete (or
      the same reason was there already): forcing past missing evidence alone records nothing. */
  lemma OverrideIsRecordedOnlyForIncompleteSteps(plans: PlanMap, op: Op, saved: bool)
    requires op.Complete? && op.id in plans
    ensures Applied(Apply(plans, op, saved).1) <==> CompletionPasses(plans[op.id], op)
    ensures CompletionPasses(plans[op.id], op) ==>
              (Apply(plans, op, saved).0[op.id].completionOverride == op.overrideReason
               <==> Incomplete(plans[op.id].steps) != [] || plans[op.id].completionOverride == op.overrideReason)
    ensures Incomplete(plans[op.id].steps) == [] || !CompletionPasses(plans[op.id], op) ==>
              Apply(plans, op, saved).0[op.id].completionOverride == plans[op.id].completionOverride
  {
    hide TrimSpace, Incomplete, MissingEvidence;
  }

  /** Every step completed, no evidence, and the reason given for forcing it is not kept. */
  lemma ForcingPastEvidenceLeavesNoReason(plans: PlanMap, id: string, step: PlanStep, reason: string, saved: bool)
    requires id in plans && id != "" && !Blank(reason)
    requires plans[id].steps == [step] && step.status == "completed" && step.evidence == []
    requires plans[id].completionOverride == ""
    ensures var after := Apply(plans, Complete(id, reason), saved).0[id];
            after.status == "completed" && !AllEvidenced(after.steps) && after.completionOverride == ""
  {
    hide TrimSpace;
    assert Incomplete([step]) == [];
    assert !AllEvidenced([step]);
  }
}
