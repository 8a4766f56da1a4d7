/**
 * The list component: it renders the service's list, keeps the text typed into
 * the new-task field and forwards the user's actions to the task service. The
 * service is represented by the trace of calls the component has made on it.
 */
module TasklistComponent {
  import opened StringTrim

  /** One call on the task service. */
  datatype ServiceCall =
    | LoadTasks
    | AddTask(title: string)
    | ToggleTask(id: string)
    | DeleteTask(id: string)

  /** A title the component may forward: non-empty and without white space at either end. */
  ghost predicate CleanTitle(title: string) {
    |title| > 0 && TrimmedEnds(title)
  }

  /** Every title in the trace is clean. */
  ghost predicate TitlesClean(calls: seq<ServiceCall>) {
    forall k :: 0 <= k < |calls| && calls[k].AddTask? ==> CleanTitle(calls[k].title)
  }

  /** Recording a call whose title (if any) is clean keeps the trace clean. */
  lemma AppendKeepsTitlesClean(calls: seq<ServiceCall>, call: ServiceCall)
    requires TitlesClean(calls)
    requires call.AddTask? ==> CleanTitle(call.title)
    ensures TitlesClean(calls + [call])
  {
    var r := calls + [call];
    forall k | 0 <= k < |r| && r[k].AddTask?
      ensures CleanTitle(r[k].title)
    {
      if k < |calls| {
        assert r[k] == calls[k];
      }
    }
  }

  /** A trimmed, non-empty title is clean. */
  lemma TrimmedTitleIsClean(text: string)
    requires !AllWhitespace(text)
    ensures CleanTitle(Trim(text))
    ensures Trim(Trim(text)) == Trim(text)
  {
    TrimIdempotent(text);
  }

  class Tasklist {
    /** The pending text of the new-task field (two-way bound to the input). */
    var newTask: string
    /** The calls issued on the task service, oldest first. */
    var calls: seq<ServiceCall>

    ghost predicate Valid()
      reads this
    {
      TitlesClean(calls)
    }

    constructor ()
      ensures Valid() && newTask == "" && calls == []
    {
      newTask := "";
      calls := [];
    }

    /** On initialisation: one request for the whole list. */
    method NgOnInit()
      requires Valid()
      modifies this
      ensures Valid()
      ensures calls == old(calls) + [LoadTasks] && newTask == old(newTask)
    {
      AppendKeepsTitlesClean(calls, LoadTasks);
      calls := calls + [LoadTasks];
    }

    /** Forwards the id to the service's toggle. */
    method Toggle(id: string)
      requires Valid()
      modifies this
      ensures Valid()
      ensures calls == old(calls) + [ToggleTask(id)] && newTask == old(newTask)
    {
      AppendKeepsTitlesClean(calls, ToggleTask(id));
      calls := calls + [ToggleTask(id)];
    }

    /** Forwards the id to the service's delete. */
    method Delete(id: string)
      requires Valid()
      modifies this
      ensures Valid()
      ensures calls == old(calls) + [DeleteTask(id)] && newTask == old(newTask)
    {
      AppendKeepsTitlesClean(calls, DeleteTask(id));
      calls := calls + [DeleteTask(id)];
    }

    /**
     * Submits the pending text: white space only is refused without a call and
     * the field kept; otherwise the trimmed text goes to the service once and
     * the field is cleared.
     */
    method AddTask()
      requires Valid()
      modifies this
      ensures Valid()
      ensures Trim(old(newTask)) == "" ==> calls == old(calls) && newTask == old(newTask)
      ensures Trim(old(newTask)) != "" ==>
                && calls == old(calls) + [ServiceCall.AddTask(Trim(old(newTask)))]
                && CleanTitle(Trim(old(newTask)))
                && newTask == ""
    {
      var trimmed := Trim(newTask);
      if |trimmed| == 0 {
        return;
      }
      assert CleanTitle(trimmed);
      AppendKeepsTitlesClean(calls, ServiceCall.AddTask(trimmed));
      calls := calls + [ServiceCall.AddTask(trimmed)];
      newTask := "";
    }
  }
}
