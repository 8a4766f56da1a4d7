/**
 * The task service: the single owner of the client-side task list. Each of its
 * four operations sends one request; when the server answers, a callback
 * rewrites the list. Here a request is a method that only computes its payload
 * and each success callback is a method that takes the server's reply as a
 * parameter. A request that fails never runs its callback, so the list stays
 * as it was.
 */
module TaskService {
  import opened Wrappers
  import opened TaskModel

  /** What the GET of the whole list delivers: the server's array, or an error. */
  datatype LoadReply = Loaded(tasks: seq<Task>) | LoadFailed(error: string)

  // ---------------------------------------------------------------------------
  // The list transforms applied by the success callbacks
  // ---------------------------------------------------------------------------

  /** The position `find` stops at: the first task whose id is `id`, if any. */
  function FirstIndexOf(tasks: seq<Task>, id: string): (r: Option<nat>)
    ensures r.None? <==> Absent(tasks, id)
    ensures r.Some? ==> r.value < |tasks| && HasId(tasks[r.value], id)
    ensures r.Some? ==> forall k :: 0 <= k < r.value ==> !HasId(tasks[k], id)
  {
    if |tasks| == 0 then None
    else if HasId(tasks[0], id) then Some(0)
    else match FirstIndexOf(tasks[1..], id)
      case None => None
      case Some(k) => Some(k + 1)
  }

  /** The `map` of the toggle callback: every task with id `id` becomes `reply`. */
  function ReplaceById(tasks: seq<Task>, id: string, reply: Task): (r: seq<Task>)
    ensures |r| == |tasks|
    ensures forall k :: 0 <= k < |tasks| && HasId(tasks[k], id) ==> r[k] == reply
    ensures forall k :: 0 <= k < |tasks| && !HasId(tasks[k], id) ==> r[k] == tasks[k]
  {
    if |tasks| == 0 then []
    else [if HasId(tasks[0], id) then reply else tasks[0]] + ReplaceById(tasks[1..], id, reply)
  }

  /** The `filter` of the delete callback: the tasks whose id is not `id`. */
  function RemoveById(tasks: seq<Task>, id: string): (r: seq<Task>)
    ensures |r| <= |tasks|
    ensures Absent(r, id)
  {
    if |tasks| == 0 then []
    else
      (if HasId(tasks[0], id) then [] else [tasks[0]]) + RemoveById(tasks[1..], id)
  }

  // ---------------------------------------------------------------------------
  // Properties of the transforms
  // ---------------------------------------------------------------------------

  /** Toggling an id nobody holds leaves the list as it is. */
  lemma ReplaceAbsent(tasks: seq<Task>, id: string, reply: Task)
    requires Absent(tasks, id)
    ensures ReplaceById(tasks, id, reply) == tasks
  {
  }

  /** With unique ids, the toggle callback rewrites exactly the one entry `find` located. */
  lemma ReplaceUniqueIsSingleUpdate(tasks: seq<Task>, id: string, reply: Task, k: nat)
    requires UniqueIds(tasks)
    requires FirstIndexOf(tasks, id) == Some(k)
    ensures ReplaceById(tasks, id, reply) == tasks[k := reply]
  {
    var r := ReplaceById(tasks, id, reply);
    forall j | 0 <= j < |tasks| && j != k
      ensures r[j] == tasks[j]
    {
      if j < k {
        assert !HasId(tasks[j], id);
      } else {
        assert tasks[k].id != tasks[j].id;
      }
    }
  }

  /** A server reply that keeps the toggled id keeps the ids unique. */
  lemma ReplaceKeepsUniqueIds(tasks: seq<Task>, id: string, reply: Task)
    requires UniqueIds(tasks)
    requires reply.id == Some(id)
    ensures UniqueIds(ReplaceById(tasks, id, reply))
  {
    var r := ReplaceById(tasks, id, reply);
    forall i, j | 0 <= i < j < |r| && r[i].id.Some?
      ensures r[i].id != r[j].id
    {
      if HasId(tasks[i], id) {
        assert tasks[i].id != tasks[j].id;
        assert r[i].id == Some(id) && r[j] == tasks[j];
      } else if HasId(tasks[j], id) {
        assert r[i] == tasks[i] && r[j].id == Some(id);
      } else {
        assert r[i] == tasks[i] && r[j] == tasks[j];
      }
    }
  }

  /** Deleting an id nobody holds leaves the list as it is. */
  lemma {:induction false} RemoveAbsent(tasks: seq<Task>, id: string)
    requires Absent(tasks, id)
    ensures RemoveById(tasks, id) == tasks
  {
    if |tasks| > 0 {
      RemoveAbsent(tasks[1..], id);
    }
  }

  /** Deleting twice is deleting once. */
  lemma RemoveIdempotent(tasks: seq<Task>, id: string)
    ensures RemoveById(RemoveById(tasks, id), id) == RemoveById(tasks, id)
  {
    RemoveAbsent(RemoveById(tasks, id), id);
  }

  /**
   * `filter` keeps the survivors in their order: filtering a concatenation is
   * concatenating the filtered parts.
   */
  lemma {:induction false} RemoveConcat(a: seq<Task>, b: seq<Task>, id: string)
    ensures RemoveById(a + b, id) == RemoveById(a, id) + RemoveById(b, id)
  {
    if |a| == 0 {
      assert a + b == b;
    } else {
      var head := if HasId(a[0], id) then [] else [a[0]];
      assert (a + b)[0] == a[0] && (a + b)[1..] == a[1..] + b;
      assert RemoveById(a + b, id) == head + RemoveById(a[1..] + b, id);
      RemoveConcat(a[1..], b, id);
      assert RemoveById(a, id) == head + RemoveById(a[1..], id);
    }
  }

  /** A single entry survives exactly when it does not carry the id. */
  lemma RemoveSingleton(t: Task, id: string)
    ensures RemoveById([t], id) == if HasId(t, id) then [] else [t]
  {
    assert [t][1..] == [];
  }

  /** The survivors are exactly the input's entries without the id, each as often as before. */
  lemma {:induction false} RemoveCounts(tasks: seq<Task>, id: string, t: Task)
    ensures multiset(RemoveById(tasks, id))[t] == if HasId(t, id) then 0 else multiset(tasks)[t]
    ensures t in RemoveById(tasks, id) <==> t in tasks && !HasId(t, id)
  {
    if |tasks| > 0 {
      var head := if HasId(tasks[0], id) then [] else [tasks[0]];
      RemoveCounts(tasks[1..], id, t);
      assert tasks == [tasks[0]] + tasks[1..];
      assert RemoveById(tasks, id) == head + RemoveById(tasks[1..], id);
      assert multiset(RemoveById(tasks, id)) == multiset(head) + multiset(RemoveById(tasks[1..], id));
      assert multiset(tasks) == multiset([tasks[0]]) + multiset(tasks[1..]);
    }
  }

  /** Deleting around a single holder of the id drops just that holder. */
  lemma RemoveAroundHolder(before: seq<Task>, holder: Task, after: seq<Task>, id: string)
    requires Absent(before, id) && HasId(holder, id) && Absent(after, id)
    ensures RemoveById(before + [holder] + after, id) == before + after
  {
    RemoveAbsent(before, id);
    RemoveAbsent(after, id);
    RemoveSingleton(holder, id);
    RemoveConcat(before, [holder], id);
    var front := RemoveById(before + [holder], id);
    assert front == before;
    RemoveConcat(before + [holder], after, id);
  }

  /** With unique ids, the delete callback drops exactly the one entry `find` located. */
  lemma RemoveUniqueIsSingleDelete(tasks: seq<Task>, id: string, k: nat)
    requires UniqueIds(tasks)
    requires FirstIndexOf(tasks, id) == Some(k)
    ensures RemoveById(tasks, id) == tasks[..k] + tasks[k + 1..]
  {
    var before, after := tasks[..k], tasks[k + 1..];
    assert tasks == before + [tasks[k]] + after;
    assert Absent(before, id) by {
      forall j | 0 <= j < |before| ensures !HasId(before[j], id) {
        assert before[j] == tasks[j];
      }
    }
    assert Absent(after, id) by {
      forall j | 0 <= j < |after| ensures !HasId(after[j], id) {
        assert after[j] == tasks[k + 1 + j];
        assert tasks[k].id != tasks[k + 1 + j].id;
      }
    }
    RemoveAroundHolder(before, tasks[k], after, id);
  }

  /** Every entry removed by the delete callback carried the id. */
  lemma {:induction false} RemoveLength(tasks: seq<Task>, id: string)
    ensures Absent(tasks, id) <==> |RemoveById(tasks, id)| == |tasks|
  {
    if |tasks| > 0 {
      RemoveLength(tasks[1..], id);
      if HasId(tasks[0], id) {
        assert !Absent(tasks, id);
      } else if !Absent(tasks[1..], id) {
        var k :| 0 <= k < |tasks[1..]| && HasId(tasks[1..][k], id);
        assert HasId(tasks[k + 1], id);
      } else {
        assert Absent(tasks, id) by {
          forall k | 1 <= k < |tasks| ensures !HasId(tasks[k], id) {
            assert tasks[k] == tasks[1..][k - 1];
          }
        }
      }
    }
  }

  /** Dropping the first entry keeps ids unique. */
  lemma TailKeepsUniqueIds(tasks: seq<Task>)
    requires UniqueIds(tasks) && |tasks| > 0
    ensures UniqueIds(tasks[1..])
  {
    var rest := tasks[1..];
    forall i, j | 0 <= i < j < |rest| && rest[i].id.Some?
      ensures rest[i].id != rest[j].id
    {
      assert rest[i] == tasks[i + 1] && rest[j] == tasks[j + 1];
    }
  }

  /** Putting a task in front of a list that does not hold its id keeps ids unique. */
  lemma ConsKeepsUniqueIds(t: Task, tail: seq<Task>)
    requires UniqueIds(tail)
    requires t.id.Some? ==> forall j :: 0 <= j < |tail| ==> t.id != tail[j].id
    ensures UniqueIds([t] + tail)
  {
    var r := [t] + tail;
    forall i, j | 0 <= i < j < |r| && r[i].id.Some?
      ensures r[i].id != r[j].id
    {
      assert r[j] == tail[j - 1];
      if i > 0 {
        assert r[i] == tail[i - 1];
      }
    }
  }

  /** Deleting keeps the ids unique. */
  lemma {:induction false} RemoveKeepsUniqueIds(tasks: seq<Task>, id: string)
    requires UniqueIds(tasks)
    ensures UniqueIds(RemoveById(tasks, id))
  {
    if |tasks| > 0 {
      var rest := tasks[1..];
      TailKeepsUniqueIds(tasks);
      RemoveKeepsUniqueIds(rest, id);
      if !HasId(tasks[0], id) {
        var tail := RemoveById(rest, id);
        assert RemoveById(tasks, id) == [tasks[0]] + tail;
        forall j | 0 <= j < |tail| && tasks[0].id.Some?
          ensures tasks[0].id != tail[j].id
        {
          RemoveCounts(rest, id, tail[j]);
          var m :| 0 <= m < |rest| && rest[m] == tail[j];
          assert tasks[m + 1] == tail[j];
        }
        ConsKeepsUniqueIds(tasks[0], tail);
      }
    }
  }

  /** Appending a created task whose id is new keeps the ids unique. */
  lemma AppendKeepsUniqueIds(tasks: seq<Task>, created: Task)
    requires UniqueIds(tasks)
    requires created.id.Some? ==> forall k :: 0 <= k < |tasks| ==> tasks[k].id != created.id
    ensures UniqueIds(tasks + [created])
  {
    var r := tasks + [created];
    forall i, j | 0 <= i < j < |r| && r[i].id.Some?
      ensures r[i].id != r[j].id
    {
      if j == |tasks| {
        assert r[i] == tasks[i] && r[j] == created;
      } else {
        assert r[i] == tasks[i] && r[j] == tasks[j];
      }
    }
  }

  /**
   * One open task "A" with id "1", echoed back completed, ends up completed.
   */
  lemma ToggleScenario()
    ensures var held := [Task(Some("1"), "A", false)];
            var k := FirstIndexOf(held, "1");
            && k == Some(0)
            && ReplaceById(held, "1", held[0].(completed := true)) == [Task(Some("1"), "A", true)]
  {
    var held := [Task(Some("1"), "A", false)];
    assert HasId(held[0], "1");
  }

  // ---------------------------------------------------------------------------
  // The service object
  // ---------------------------------------------------------------------------

  class TaskStore {
    /** The list the presentation layer renders, in server order. */
    var tasks: seq<Task>

    constructor ()
      ensures tasks == []
    {
      tasks := [];
    }

    /** The answer to the GET: success replaces the list wholesale, failure is only logged. */
    method OnTasksLoaded(reply: LoadReply)
      modifies this
      ensures reply.Loaded? ==> tasks == reply.tasks
      ensures reply.LoadFailed? ==> tasks == old(tasks)
    {
      match reply
      case Loaded(fetched) => tasks := fetched;
      case LoadFailed(_) =>
    }

    /** The body of the POST: the given title, not completed, no id yet. */
    method AddTaskPayload(title: string) returns (payload: Task)
      ensures payload.title == title && !payload.completed
      ensures payload.id == None && forall id :: !HasId(payload, id)
    {
      payload := Task(None, title, false);
    }

    /** The POST succeeded: the created task goes at the end, earlier entries stay in place. */
    method OnTaskCreated(created: Task)
      modifies this
      ensures tasks == old(tasks) + [created]
      ensures |tasks| == |old(tasks)| + 1 && tasks[|tasks| - 1] == created
      ensures forall k :: 0 <= k < |old(tasks)| ==> tasks[k] == old(tasks)[k]
      ensures UniqueIds(old(tasks)) && (created.id.Some? ==> forall k :: 0 <= k < |old(tasks)| ==> old(tasks)[k].id != created.id)
              ==> UniqueIds(tasks)
    {
      if UniqueIds(tasks) && (created.id.Some? ==> forall k :: 0 <= k < |tasks| ==> tasks[k].id != created.id) {
        AppendKeepsUniqueIds(tasks, created);
      }
      tasks := tasks + [created];
    }

    /**
     * The body of the PUT, or None when no held task has the id (then no
     * request is sent): the first task with that id, its flag inverted.
     */
    method ToggleTaskPayload(id: string) returns (payload: Option<Task>)
      ensures payload.None? <==> Absent(tasks, id)
      ensures payload.Some? ==>
                var k := FirstIndexOf(tasks, id);
                && k.Some?
                && payload.value.id == tasks[k.value].id
                && payload.value.title == tasks[k.value].title
                && payload.value.completed == !tasks[k.value].completed
      ensures payload.Some? ==> HasId(payload.value, id)
    {
      match FirstIndexOf(tasks, id)
      case None =>
        payload := None;
      case Some(k) =>
        var found := tasks[k];
        payload := Some(found.(completed := !found.completed));
    }

    /** The PUT succeeded: every entry with the id becomes the server's reply, the rest stay put. */
    method OnTaskUpdated(id: string, reply: Task)
      modifies this
      ensures tasks == ReplaceById(old(tasks), id, reply)
      ensures |tasks| == |old(tasks)|
      ensures forall k :: 0 <= k < |tasks| ==>
                tasks[k] == if HasId(old(tasks)[k], id) then reply else old(tasks)[k]
      ensures UniqueIds(old(tasks)) && reply.id == Some(id) ==> UniqueIds(tasks)
    {
      if UniqueIds(tasks) && reply.id == Some(id) {
        ReplaceKeepsUniqueIds(tasks, id, reply);
      }
      tasks := ReplaceById(tasks, id, reply);
    }

    /** The DELETE succeeded: the entries with the id go, the survivors keep their order. */
    method OnTaskDeleted(id: string)
      modifies this
      ensures tasks == RemoveById(old(tasks), id)
      ensures Absent(tasks, id)
      ensures Absent(old(tasks), id) ==> tasks == old(tasks)
      ensures UniqueIds(old(tasks)) ==> UniqueIds(tasks)
    {
      if Absent(tasks, id) {
        RemoveAbsent(tasks, id);
      }
      if UniqueIds(tasks) {
        RemoveKeepsUniqueIds(tasks, id);
      }
      tasks := RemoveById(tasks, id);
    }
  }
}
