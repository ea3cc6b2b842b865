/** The agent tree that IDs of the form "<scope>/<name>" span: who may touch whose queue
    (extensions/queue/cancel.go), whose child an agent is, and what a kill removes from the
    local records (extensions/agents/main.go). */
module AgentTree {
  import opened GoStrings
  import opened Options

  type AgentID = string

  // ---------- Parents ----------

  /** agentParentID: the scope before the last slash, "" for a root. */
  function ParentID(id: AgentID): (p: AgentID)
    ensures p != "" ==> |p| < |id|
  {
    var i := LastSlash(id);
    if i <= 0 then "" else id[..i]
  }

  /** `a` occurs on the chain of parents of `id`. */
  predicate OnParentChain(a: AgentID, id: AgentID)
    decreases |id|
  {
    var p := ParentID(id);
    p != "" && (p == a || OnParentChain(a, p))
  }

  /** The prefix test that both sources use is the parent chain. */
  lemma {:induction false} PrefixIsParentChain(a: AgentID, id: AgentID)
    requires a != ""
    ensures a + "/" <= id <==> OnParentChain(a, id)
    decreases |id|
  {
    var p, i := ParentID(id), LastSlash(id);
    assert a + "/" <= id ==> id[|a|] == (a + "/")[|a|] == '/';
    if p == "" {
    } else {
      PrefixIsParentChain(a, p);
      assert id[..i + 1] == p + "/";
      if a + "/" <= id {
        assert id[|a|] == '/' && a == id[..|a|];
        assert |a| < i ==> (a + "/") <= p;
      }
      if a + "/" <= p {
        assert p <= id;
      }
    }
  }

  // ---------- Queue ownership ----------

  const ROOT_AGENT := "main"

  /** resolveQueueTarget: the target and whether the caller may use it. */
  function ResolveQueueTarget(caller: AgentID, requested: AgentID): (AgentID, bool) {
    var caller := if caller == "" then ROOT_AGENT else caller;
    if requested == "" then (caller, true)
    else if requested == caller || caller + "/" <= requested then (requested, true)
    else ("", false)
  }

  predicate MayAccess(caller: AgentID, target: AgentID) {
    target != "" && ResolveQueueTarget(caller, target).1
  }

  /** Who acts when the host names no caller. */
  function ActingAgent(caller: AgentID): AgentID {
    if caller == "" then ROOT_AGENT else caller
  }

  /** Exactly oneself and the agents whose parent chain passes through oneself; an empty caller
      is the root agent, an empty target oneself. */
  lemma {:induction false} AccessIsAncestry(caller: AgentID, target: AgentID)
    ensures ResolveQueueTarget(caller, target).1
       <==> target == "" || target == ActingAgent(caller) || OnParentChain(ActingAgent(caller), target)
    ensures ActingAgent(caller) == if caller == "" then "main" else caller
    ensures ResolveQueueTarget(caller, target).1 ==>
              ResolveQueueTarget(caller, target).0 == if target == "" then ActingAgent(caller) else target
  {
    PrefixIsParentChain(ActingAgent(caller), target);
  }

  /** Access is a partial order on agent IDs. */
  lemma AccessIsPartialOrder(a: AgentID, b: AgentID, c: AgentID)
    requires a != "" && b != "" && c != ""
    ensures MayAccess(a, a)
    ensures MayAccess(a, b) && MayAccess(b, a) ==> a == b
    ensures MayAccess(a, b) && MayAccess(b, c) ==> MayAccess(a, c)
  {
    if a + "/" <= b && b + "/" <= c {
      assert a + "/" <= c;
    }
  }

  /** What two agents can reach is nested or disjoint: an agent reached by both is reached
      through one of them. */
  lemma ReachIsNestedOrDisjoint(a: AgentID, b: AgentID, x: AgentID)
    requires a != "" && b != "" && MayAccess(a, x) && MayAccess(b, x)
    ensures MayAccess(a, b) || MayAccess(b, a)
  {
    if x != a && x != b {
      assert a == x[..|a|] && x[|a|] == '/' && b == x[..|b|] && x[|b|] == '/';
      if |a| < |b| {
        assert a + "/" == b[..|a| + 1];
      } else if |b| < |a| {
        assert b + "/" == a[..|b| + 1];
      }
    }
  }

  datatype QueueRequest = QueueRequest(agentID: AgentID, index: Option<int>, messageID: string)

  datatype CancelPlan = CancelPlan(target: AgentID, clear: bool, byIndex: Option<int>, byMessageID: string)

  /** The validation of parseQueueToolRequest. */
  predicate ValidRequest(req: QueueRequest) {
    !(req.index.Some? && req.messageID != "") && !(req.index.Some? && req.index.value < 0)
  }

  function PlanCancel(caller: AgentID, req: QueueRequest): Option<CancelPlan> {
    var (target, ok) := ResolveQueueTarget(caller, req.agentID);
    if !ok then None
    else if req.index.Some? then Some(CancelPlan(target, false, req.index, ""))
    else if req.messageID != "" then Some(CancelPlan(target, false, None, req.messageID))
    else Some(CancelPlan(target, true, None, ""))
  }

  /** A sub-agent can never discard another agent's queue: a cancellation is planned exactly
      for targets in the caller's own subtree, and clears it only without a selector. */
  lemma CancelStaysInTheSubtree(caller: AgentID, req: QueueRequest)
    requires ValidRequest(req)
    ensures PlanCancel(caller, req).Some?
       <==> || req.agentID in {"", ActingAgent(caller)}
            || OnParentChain(ActingAgent(caller), req.agentID)
    ensures PlanCancel(caller, req).Some? ==>
              var plan := PlanCancel(caller, req).value;
              && MayAccess(caller, plan.target)
              && (plan.clear <==> req.index == None && req.messageID == "")
              && plan.byIndex == req.index && plan.byMessageID == req.messageID
  {
    PrefixIsParentChain(ActingAgent(caller), req.agentID);
  }

  // ---------- Killing an agent ----------

  datatype AgentRecord = AgentRecord(id: AgentID, name: string, task: string, lastUpdate: string)

  predicate InSubtree(id: AgentID, x: AgentID) {
    x == id || id + "/" <= x
  }

  /** The records whose ID is not in `gone`, in order. */
  function Without(rs: seq<AgentRecord>, gone: set<AgentID>): seq<AgentRecord> {
    if rs == [] then []
    else
      var last := rs[|rs| - 1];
      Without(rs[..|rs| - 1], gone) + if last.id in gone then [] else [last]
  }

  /** The records outside the subtree of `id`, in order. */
  function OutsideSubtree(rs: seq<AgentRecord>, id: AgentID): seq<AgentRecord> {
    if rs == [] then []
    else
      var last := rs[|rs| - 1];
      OutsideSubtree(rs[..|rs| - 1], id) + if InSubtree(id, last.id) then [] else [last]
  }

  lemma {:induction false} WithoutTwice(rs: seq<AgentRecord>, a: set<AgentID>, b: set<AgentID>)
    ensures Without(Without(rs, a), b) == Without(rs, a + b)
  {
    if rs == [] {
    } else {
      var init, last := rs[..|rs| - 1], rs[|rs| - 1];
      WithoutTwice(init, a, b);
      if last.id in a {
        assert Without(rs, a) == Without(init, a);
      } else {
        assert (Without(init, a) + [last])[..|Without(init, a)|] == Without(init, a);
      }
    }
  }

  lemma {:induction false} WithoutDescendants(rs: seq<AgentRecord>, id: AgentID, gone: set<AgentID>)
    requires forall r :: r in rs ==> (r.id in gone <==> InSubtree(id, r.id))
    ensures Without(rs, gone) == OutsideSubtree(rs, id)
  {
    if rs == [] {
    } else {
      WithoutDescendants(rs[..|rs| - 1], id, gone);
      assert rs[|rs| - 1] in rs;
    }
  }

  lemma {:induction false} WithoutMembers(rs: seq<AgentRecord>, gone: set<AgentID>)
    ensures forall r :: r in Without(rs, gone) <==> r in rs && r.id !in gone
  {
    if rs == [] {
    } else {
      WithoutMembers(rs[..|rs| - 1], gone);
      assert rs == rs[..|rs| - 1] + [rs[|rs| - 1]];
    }
  }

  class AgentRecords {
    var backing: array<AgentRecord>
    var count: nat

    ghost predicate Valid()
      reads this
    {
      count <= backing.Length
    }

    ghost function Contents(): seq<AgentRecord>
      requires Valid()
      reads this, backing
    {
      backing[..count]
    }

    constructor (records: array<AgentRecord>)
      ensures Valid() && backing == records && Contents() == records[..]
    {
      backing := records;
      count := records.Length;
      new;
      assert records[..records.Length] == records[..];
    }

    /** Filters in place: the slice that is written shares its memory with the one read. */
    method RemoveAgent(id: AgentID)
      requires Valid()
      modifies backing, `count
      ensures Valid() && backing == old(backing)
      ensures Contents() == Without(old(Contents()), {id})
    {
      ghost var was := Contents();
      var out := 0;
      for i := 0 to count
        invariant out <= i && count == old(count)
        invariant forall j :: i <= j < count ==> backing[j] == was[j]
        invariant backing[..out] == Without(was[..i], {id})
      {
        assert was[..i + 1][..i] == was[..i];
        var r := backing[i];
        if r.id != id {
          backing[out] := r;
          out := out + 1;
        }
      }
      assert was[..count] == was;
      count := out;
    }

    /** onAgentsKill after the host has closed the agent and its descendants. */
    method AgentsKill(id: AgentID, closeFailed: bool)
      requires Valid()
      modifies backing, `count
      ensures Valid() && backing == old(backing)
      ensures Contents() == if id == "" || closeFailed then old(Contents()) else OutsideSubtree(old(Contents()), id)
    {
      if id == "" || closeFailed {
        return;
      }
      hide Without, OutsideSubtree, DescendantIDs;
      ghost var was := Contents();
      RemoveAgent(id);
      var rest := backing[..count]; // the loop ranges over a copy
      NoDescendants(id);
      assert rest[..0] == [] && {id} + {} == {id};
      for k := 0 to |rest|
        invariant Valid() && backing == old(backing)
        invariant Contents() == Without(was, {id} + DescendantIDs(rest[..k], id))
      {
        OneMoreRecord(rest, k, id);
        if id + "/" <= rest[k].id {
          WithoutTwice(was, {id} + DescendantIDs(rest[..k], id), {rest[k].id});
          RemoveAgent(rest[k].id);
          assert {id} + DescendantIDs(rest[..k], id) + {rest[k].id} == {id} + DescendantIDs(rest[..k + 1], id);
        } else {
          assert DescendantIDs(rest[..k + 1], id) == DescendantIDs(rest[..k], id);
        }
      }
      assert rest[..|rest|] == rest;
      RestIsOutsideSubtree(was, rest, id);
    }
  }

  /** The IDs of the descendants of `id` among the records. */
  ghost function DescendantIDs(rs: seq<AgentRecord>, id: AgentID): set<AgentID> {
    if rs == [] then {}
    else
      var last := rs[|rs| - 1];
      DescendantIDs(rs[..|rs| - 1], id) + if id + "/" <= last.id then {last.id} else {}
  }

  lemma NoDescendants(id: AgentID)
    ensures DescendantIDs([], id) == {}
  {
  }

  lemma OneMoreRecord(rs: seq<AgentRecord>, k: nat, id: AgentID)
    requires k < |rs|
    ensures DescendantIDs(rs[..k + 1], id)
         == DescendantIDs(rs[..k], id) + if id + "/" <= rs[k].id then {rs[k].id} else {}
  {
    assert rs[..k + 1][..k] == rs[..k];
  }

  lemma {:induction false} DescendantIDsAre(rs: seq<AgentRecord>, id: AgentID)
    ensures forall r :: r in rs && id + "/" <= r.id ==> r.id in DescendantIDs(rs, id)
    ensures forall x :: x in DescendantIDs(rs, id) ==> id + "/" <= x
  {
    if rs == [] {
    } else {
      DescendantIDsAre(rs[..|rs| - 1], id);
      assert rs == rs[..|rs| - 1] + [rs[|rs| - 1]];
    }
  }

  lemma RestIsOutsideSubtree(was: seq<AgentRecord>, rest: seq<AgentRecord>, id: AgentID)
    requires rest == Without(was, {id})
    ensures Without(was, {id} + DescendantIDs(rest, id)) == OutsideSubtree(was, id)
  {
    WithoutMembers(was, {id});
    DescendantIDsAre(rest, id);
    hide Without, DescendantIDs;
    forall r | r in was
      ensures r.id in {id} + DescendantIDs(rest, id) <==> InSubtree(id, r.id)
    {
      assert r.id != id ==> r in rest;
    }
    WithoutDescendants(was, id, {id} + DescendantIDs(rest, id));
  }

  /** In terms of parents: a kill removes exactly the agent's records and its descendants'. */
  lemma {:induction false} KillRemovesTheSubtree(rs: seq<AgentRecord>, id: AgentID)
    requires id != ""
    ensures forall r :: r in OutsideSubtree(rs, id) <==> r in rs && r.id != id && !OnParentChain(id, r.id)
  {
    if rs == [] {
    } else {
      var init, last := rs[..|rs| - 1], rs[|rs| - 1];
      KillRemovesTheSubtree(init, id);
      PrefixIsParentChain(id, last.id);
      assert rs == init + [last];
    }
  }
}
