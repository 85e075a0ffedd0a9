/**
 Chains of subagents, `_call_subagent` and `spawn_subagent_task` of `app/services/agent_tasks.py`:
 the walk to the ancestors, the context a child gets, and the bound on the chain.
 */
module Subagents {
  import opened Prelude
  import opened JsonValues

  const PARENT := "parent_task_id"
  const RESERVED: set<string> := {PARENT, "subagent_id", "max_steps", "owner_id"}

  type Context = map<string, Json>

  // `born` orders the tasks by creation; it is history, read by no operation.
  datatype Task = Task(context: Context, born: nat)

  type Tasks = map<string, Task>

  datatype Spec = Spec(parent: string, subagentId: string, maxSteps: int, inherit: seq<string>)

  // ---- The parent link ----

  function Text(value: Json): string {
    match value
    case JStr(text) => text
    case _ => ""
  }

  /** str(context.get("parent_task_id") or "") */
  function ParentOf(context: Context): string {
    if PARENT in context then Text(context[PARENT]) else ""
  }

  /** Parents exist, and existed before their children. */
  ghost predicate WellFounded(tasks: Tasks) {
    forall id | id in tasks && ParentOf(tasks[id].context) != "" ::
      ParentOf(tasks[id].context) in tasks && tasks[ParentOf(tasks[id].context)].born < tasks[id].born
  }

  /** The number of ancestors. */
  ghost function Depth(tasks: Tasks, id: string): nat
    requires WellFounded(tasks)
    decreases if id in tasks then tasks[id].born + 1 else 0
  {
    if id !in tasks || ParentOf(tasks[id].context) == "" then 0
    else 1 + Depth(tasks, ParentOf(tasks[id].context))
  }

  /** The ancestors of a task, its parent first, up to one without a parent. */
  ghost predicate Ancestors(tasks: Tasks, id: string, chain: seq<string>)
    decreases |chain|
  {
    if chain == [] then id !in tasks || "parent_task_id" !in tasks[id].context
                        || !tasks[id].context["parent_task_id"].JStr? || tasks[id].context["parent_task_id"].text == ""
    else id in tasks && chain[0] != "" && "parent_task_id" in tasks[id].context
         && tasks[id].context["parent_task_id"] == JStr(chain[0]) && Ancestors(tasks, chain[0], chain[1..])
  }

  /** A task has one chain of ancestors, and its depth is the length. */
  lemma {:induction false} DepthIsTheChain(tasks: Tasks, id: string) returns (chain: seq<string>)
    requires WellFounded(tasks)
    ensures Ancestors(tasks, id, chain) && Depth(tasks, id) == |chain|
    ensures forall other :: Ancestors(tasks, id, other) ==> other == chain
    decreases if id in tasks then tasks[id].born + 1 else 0
  {
    if id !in tasks || ParentOf(tasks[id].context) == "" {
      chain := [];
      assert forall other :: Ancestors(tasks, id, other) ==> other == [];
    } else {
      var parent := ParentOf(tasks[id].context);
      var rest := DepthIsTheChain(tasks, parent);
      chain := [parent] + rest;
      assert chain[1..] == rest;
      forall other | Ancestors(tasks, id, other) ensures other == chain {
        assert other != [] && other[0] == parent;
        assert Ancestors(tasks, parent, other[1..]);
        assert other == [parent] + other[1..];
      }
    }
  }

  /** The loop of `_call_subagent`: it ends, and counts the ancestors. */
  method WalkToRoot(tasks: Tasks, start: string) returns (depth: nat)
    requires WellFounded(tasks)
    ensures start != "" ==> depth == Depth(tasks, start)
    ensures start != "" ==> exists chain | Ancestors(tasks, start, chain) :: depth == |chain|
  {
    ghost var chain := DepthIsTheChain(tasks, start);
    depth := 0;
    var cursor := start;
    while cursor != ""
      invariant start == "" || depth + Depth(tasks, cursor) == Depth(tasks, start)
      invariant cursor == "" && start != "" ==> depth == Depth(tasks, start)
      decreases if cursor == "" then 0 else if cursor in tasks then tasks[cursor].born + 2 else 1
    {
      if cursor !in tasks {
        break;
      }
      cursor := ParentOf(tasks[cursor].context);
      if cursor != "" {
        depth := depth + 1;
      } else {
        return;
      }
    }
  }

  // ---- The child's context ----

  function OwnContext(spec: Spec): Context {
    map[PARENT := JStr(spec.parent), "subagent_id" := JStr(spec.subagentId), "max_steps" := JNum(spec.maxSteps)]
  }

  function Inherited(context: Context, keys: seq<string>, parent: Context): Context
    decreases |keys|
  {
    if keys == [] then context
    else if keys[0] in RESERVED || keys[0] !in parent then Inherited(context, keys[1..], parent)
    else Inherited(context[keys[0] := parent[keys[0]]], keys[1..], parent)
  }

  method InheritKeys(spec: Spec, parent: Context) returns (context: Context)
    ensures context == Inherited(OwnContext(spec), spec.inherit, parent)
  {
    context := OwnContext(spec);
    for i := 0 to |spec.inherit|
      invariant Inherited(context, spec.inherit[i..], parent) == Inherited(OwnContext(spec), spec.inherit, parent)
    {
      assert spec.inherit[i..][1..] == spec.inherit[i + 1..];
      var key := spec.inherit[i];
      if key !in RESERVED && key in parent {
        context := context[key := parent[key]];
      }
    }
  }

  /** Whatever keys a plan asks to inherit, the child keeps its own links; other keys come from the parent. */
  lemma {:induction false} ChildKeepsItsLinks(context: Context, keys: seq<string>, parent: Context, key: string)
    ensures key in RESERVED ==>
      (key in Inherited(context, keys, parent) <==> key in context)
      && (key in context ==> Inherited(context, keys, parent)[key] == context[key])
    ensures key !in RESERVED && key in parent && key in keys ==>
      key in Inherited(context, keys, parent) && Inherited(context, keys, parent)[key] == parent[key]
    ensures key !in keys || key !in parent ==>
      (key in Inherited(context, keys, parent) <==> key in context)
      && (key in context ==> Inherited(context, keys, parent)[key] == context[key])
    decreases |keys|
  {
    if keys != [] {
      var next := if keys[0] in RESERVED || keys[0] !in parent then context else context[keys[0] := parent[keys[0]]];
      ChildKeepsItsLinks(next, keys[1..], parent, key);
    }
  }

  // ---- Spawning and calling ----

  datatype Spawned = Child(id: string, tasks: Tasks) | UnknownParent | TooDeep(depth: nat)

  /** What create_task adds on top of the given context; none of it is a link key but the owner. */
  function Stamped(context: Context, stamps: Context): Context {
    context + (stamps - (RESERVED - {"owner_id"}))
  }

  function ChildOf(tasks: Tasks, spec: Spec, stamps: Context): Task
    requires spec.parent in tasks
  {
    Task(Stamped(Inherited(OwnContext(spec), spec.inherit, tasks[spec.parent].context), stamps), |tasks|)
  }

  /**
   Key by key, a child's context: its three own keys, then what create_task stamps, then what the plan
   asks for and the parent has; no reserved key is inherited.
   */
  ghost predicate HasOwnAndInherited(context: Context, spec: Spec, parent: Context, stamps: Context) {
    && "parent_task_id" in context && context["parent_task_id"] == JStr(spec.parent)
    && "subagent_id" in context && context["subagent_id"] == JStr(spec.subagentId)
    && "max_steps" in context && context["max_steps"] == JNum(spec.maxSteps)
    && forall key | key != "parent_task_id" && key != "subagent_id" && key != "max_steps" ::
         if key in stamps then key in context && context[key] == stamps[key]
         else if key in spec.inherit && key in parent && key != "owner_id" then key in context && context[key] == parent[key]
         else key !in context
  }

  lemma ChildContext(tasks: Tasks, spec: Spec, stamps: Context)
    requires spec.parent in tasks
    ensures HasOwnAndInherited(ChildOf(tasks, spec, stamps).context, spec, tasks[spec.parent].context, stamps)
  {
    var parent := tasks[spec.parent].context;
    assert "parent_task_id"[0] != "subagent_id"[0] && "max_steps"[0] != "subagent_id"[0] && "parent_task_id"[0] != "max_steps"[0];
    assert "owner_id"[0] != "parent_task_id"[0] && "owner_id"[0] != "subagent_id"[0] && "owner_id"[0] != "max_steps"[0];
    forall key {
      ChildKeepsItsLinks(OwnContext(spec), spec.inherit, parent, key);
    }
    hide Inherited;
  }

  /** Creation order: every task was born before the next one will be. */
  ghost predicate InOrder(tasks: Tasks) {
    forall id | id in tasks :: tasks[id].born < |tasks|
  }

  method SpawnSubagentTask(tasks: Tasks, spec: Spec, id: string, stamps: Context) returns (spawned: Spawned)
    requires id !in tasks
    ensures spawned == if spec.parent in tasks then Child(id, tasks[id := ChildOf(tasks, spec, stamps)]) else UnknownParent
    ensures spawned.Child? <==> spec.parent in tasks
    ensures spawned.Child? ==>
      && spawned.id == id && spawned.tasks.Keys == tasks.Keys + {id}
      && (forall other | other in tasks :: spawned.tasks[other] == tasks[other])
      && HasOwnAndInherited(spawned.tasks[id].context, spec, tasks[spec.parent].context, stamps)
  {
    if spec.parent in tasks { ChildContext(tasks, spec, stamps); }
    if spec.parent !in tasks {
      return UnknownParent;
    }
    var context := InheritKeys(spec, tasks[spec.parent].context);
    spawned := Child(id, tasks[id := Task(Stamped(context, stamps), |tasks|)]);
  }

  /** `later` is what the tasks have become between the walk and the write. */
  method CallSubagent(tasks: Tasks, later: Tasks, spec: Spec, id: string, stamps: Context, maxDepth: nat)
    returns (spawned: Spawned)
    requires WellFounded(tasks) && spec.parent != "" && id !in later
    ensures spawned.TooDeep? <==> exists chain | Ancestors(tasks, spec.parent, chain) :: |chain| + 1 > maxDepth
    ensures Depth(tasks, spec.parent) + 1 > maxDepth ==> spawned == TooDeep(Depth(tasks, spec.parent) + 1)
    ensures Depth(tasks, spec.parent) + 1 <= maxDepth ==>
      spawned == if spec.parent in later then Child(id, later[id := ChildOf(later, spec, stamps)]) else UnknownParent
  {
    var depth := WalkToRoot(tasks, spec.parent);
    ghost var chain := DepthIsTheChain(tasks, spec.parent);
    if depth + 1 > maxDepth {
      return TooDeep(depth + 1);
    }
    spawned := SpawnSubagentTask(later, spec, id, stamps);
  }

  // ---- The bound ----

  /** Tasks are added and none is deleted; a link never changes. */
  ghost predicate Grows(before: Tasks, after: Tasks) {
    forall id | id in before ::
      id in after && after[id].born == before[id].born
      && ParentOf(after[id].context) == ParentOf(before[id].context)
  }

  lemma {:induction false} DepthStays(before: Tasks, after: Tasks, id: string)
    requires WellFounded(before) && WellFounded(after) && Grows(before, after) && id in before
    ensures Depth(after, id) == Depth(before, id)
    decreases before[id].born
  {
    if ParentOf(before[id].context) != "" { DepthStays(before, after, ParentOf(before[id].context)); }
  }

  lemma ChildLinksToParent(tasks: Tasks, spec: Spec, stamps: Context)
    requires spec.parent in tasks
    ensures ParentOf(ChildOf(tasks, spec, stamps).context) == spec.parent
  {
    ChildKeepsItsLinks(OwnContext(spec), spec.inherit, tasks[spec.parent].context, PARENT);
    assert PARENT != "owner_id" by { assert PARENT[0] != "owner_id"[0]; }
    assert PARENT in RESERVED - {"owner_id"};
  }

  /** Spawning keeps parents before children. */
  lemma SpawnKeepsOrder(tasks: Tasks, spec: Spec, id: string, stamps: Context)
    requires WellFounded(tasks) && InOrder(tasks) && spec.parent in tasks && id !in tasks && spec.parent != ""
    ensures var after := tasks[id := ChildOf(tasks, spec, stamps)];
            WellFounded(after) && InOrder(after) && Grows(tasks, after)
  {
    ChildLinksToParent(tasks, spec, stamps);
    hide ChildOf;
    var child := ChildOf(tasks, spec, stamps);
    assert child.born == |tasks| by { ChildIsYoungest(tasks, spec, stamps); }
    assert |tasks[id := child]| == |tasks| + 1;
  }

  lemma ChildIsYoungest(tasks: Tasks, spec: Spec, stamps: Context)
    requires spec.parent in tasks
    ensures ChildOf(tasks, spec, stamps).born == |tasks|
  {
  }

  /**
   A called subagent never has more than maxDepth ancestors, neither when it is made nor at
   any later time, although walk and write are separate transactions.
   */
  lemma CalledSubagentIsShallow(tasks: Tasks, later: Tasks, spec: Spec, id: string, stamps: Context, maxDepth: nat,
                                end: Tasks)
    requires WellFounded(tasks) && WellFounded(later) && InOrder(later) && Grows(tasks, later)
    requires spec.parent in tasks && spec.parent != "" && id !in later
    requires Depth(tasks, spec.parent) + 1 <= maxDepth
    requires WellFounded(end) && Grows(later[id := ChildOf(later, spec, stamps)], end)
    ensures id in end && Depth(end, id) == Depth(tasks, spec.parent) + 1 <= maxDepth
    ensures forall chain :: Ancestors(end, id, chain) ==> |chain| <= maxDepth
  {
    var after := later[id := ChildOf(later, spec, stamps)];
    SpawnKeepsOrder(later, spec, id, stamps);
    ChildLinksToParent(later, spec, stamps);
    hide ChildOf;
    DepthStays(tasks, later, spec.parent);
    DepthStays(later, after, spec.parent);
    DepthStays(after, end, id);
    var chain := DepthIsTheChain(end, id);
  }

  /** Had parent_task_id been heritable, the child would hang from the grandparent, one level too high. */
  lemma HeritableLinkSkipsALevel(parent: Context, grandparent: string)
    requires PARENT in parent && parent[PARENT] == JStr(grandparent)
    ensures ParentOf(OwnContext(Spec("P", "S", 8, [PARENT]))[PARENT := parent[PARENT]]) == grandparent
    ensures ParentOf(Inherited(OwnContext(Spec("P", "S", 8, [PARENT])), [PARENT], parent)) == "P"
  {
    ChildKeepsItsLinks(OwnContext(Spec("P", "S", 8, [PARENT])), [PARENT], parent, PARENT);
    assert PARENT[0] != "subagent_id"[0] && PARENT[0] != "max_steps"[0];
  }
}
