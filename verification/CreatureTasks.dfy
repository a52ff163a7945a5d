/**
 One creature's asynchronous work: the task list, the flag word, the flags deferred while a snapshot
 runs, and its bucket entry. Calls on one creature do not overlap; a task may call back into it.
 */
module CreatureTasks {
  import opened Lists

  datatype Flag =
    | AsyncTaskRunning | UpdateTargetList | UpdateIdleStatus | Pathfinder | OnThink | TargetRanking | CombatIntention

  type Task = nat

  /** What code running inside `executeAsyncTasks` may do to the creature itself. */
  datatype Act = Add(task: Task) | Raise(flag: Flag) | Lower(flag: Flag)

  type Script = Task -> seq<Act>

  /** The tasks added by `acts`, in order. */
  function Added(acts: seq<Act>): seq<Task> {
    if acts == [] then [] else AddOne(Added(acts[..|acts| - 1]), acts[|acts| - 1])
  }

  function AddOne(ts: seq<Task>, a: Act): seq<Task> {
    if a.Add? then ts + [a.task] else ts
  }

  /** `m_deferredAsyncTaskFlags` after `acts`. */
  function Deferred(acts: seq<Act>): set<Flag> {
    if acts == [] then {} else DeferOne(Deferred(acts[..|acts| - 1]), acts[|acts| - 1])
  }

  function DeferOne(fs: set<Flag>, a: Act): set<Flag> {
    match a
    case Add(_) => fs
    case Raise(f) => if f == AsyncTaskRunning then fs else fs + {f}
    case Lower(f) => fs - {f}
  }

  ghost predicate RaisedLast(acts: seq<Act>, f: Flag) {
    exists i :: 0 <= i < |acts| && acts[i] == Raise(f) && Lower(f) !in acts[i..]
  }

  lemma RaisedLastSnoc(acts: seq<Act>, a: Act, f: Flag)
    ensures RaisedLast(acts + [a], f) <==> a == Raise(f) || (a != Lower(f) && RaisedLast(acts, f))
  {
    var all, n := acts + [a], |acts|;
    if a == Raise(f) {
      assert all[n] == Raise(f) && all[n..] == [Raise(f)];
    }
    if a != Lower(f) && RaisedLast(acts, f) {
      var i :| 0 <= i < n && acts[i] == Raise(f) && Lower(f) !in acts[i..];
      assert all[i] == Raise(f) && all[i..] == acts[i..] + [a];
    }
    if a != Raise(f) && RaisedLast(all, f) {
      var i :| 0 <= i < n + 1 && all[i] == Raise(f) && Lower(f) !in all[i..];
      assert all[i..] == acts[i..] + [a] && a in all[i..];
      assert acts[i] == Raise(f);
    }
  }

  /** A deferred flag is one that was raised during the run and not lowered afterwards. */
  lemma {:induction false} DeferredIsRaisedLast(acts: seq<Act>, f: Flag)
    ensures f in Deferred(acts) <==> f != AsyncTaskRunning && RaisedLast(acts, f)
  {
    hide RaisedLast;
    if acts == [] {
      NothingRaised(f);
    } else {
      var n := |acts| - 1;
      DeferredIsRaisedLast(acts[..n], f);
      RaisedLastSnoc(acts[..n], acts[n], f);
      assert acts == acts[..n] + [acts[n]];
    }
  }

  lemma NothingRaised(f: Flag)
    ensures !RaisedLast([], f)
  {
  }

  lemma ActsSnoc(acts: seq<Act>, a: Act)
    ensures Added(acts + [a]) == AddOne(Added(acts), a)
    ensures Deferred(acts + [a]) == DeferOne(Deferred(acts), a)
  {
    assert (acts + [a])[..|acts|] == acts;
  }

  /** What the tasks `ts` do, one after the other. */
  function ActsOf(script: Script, ts: seq<Task>): seq<Act> {
    if ts == [] then [] else ActsOf(script, ts[..|ts| - 1]) + script(ts[|ts| - 1])
  }

  /** Every task has its turn: its script, between those of the tasks before and after it. */
  lemma {:induction false} ActsInTurn(script: Script, before: seq<Task>, task: Task, after: seq<Task>)
    ensures ActsOf(script, before + [task] + after)
         == ActsOf(script, before) + script(task) + ActsOf(script, after)
    decreases |after|
  {
    hide ActsOf;
    if after == [] {
      LastOne(before, task);
      ActsLast(script, before + [task]);
      NoActs(script, ActsOf(script, before) + script(task));
    } else {
      var n := |after| - 1;
      ActsInTurn(script, before, task, after[..n]);
      LastBehind(before, task, after);
      ActsLast(script, before + [task] + after);
      ActsLast(script, after);
      AssocFour(ActsOf(script, before), script(task), ActsOf(script, after[..n]), script(after[n]));
    }
  }

  lemma ActsLast(script: Script, ts: seq<Task>)
    requires ts != []
    ensures ActsOf(script, ts) == ActsOf(script, ts[..|ts| - 1]) + script(ts[|ts| - 1])
  {
  }

  lemma NoActs(script: Script, acts: seq<Act>)
    ensures acts + ActsOf(script, []) == acts
  {
  }

  class Creature {
    var asyncTasks: seq<Task>
    var flags: set<Flag>
    var deferred: set<Flag>
    var executing: bool
    var entries: nat      // this creature's entries in the buckets
    var executed: seq<Task>

    /** Queued exactly while the flag is up outside a run; nothing queues it during a run. */
    ghost predicate Valid()
      reads this
    {
      && entries == (if AsyncTaskRunning in flags && !executing then 1 else 0)
      && (!executing ==> deferred == {})
    }

    constructor ()
      ensures Valid() && asyncTasks == [] && flags == {} && !executing && executed == []
    {
      asyncTasks, flags, deferred, executing, entries, executed := [], {}, {}, false, 0, [];
    }

    /** `admitted` is false when the dispatcher refuses the event and the bucket is rolled back. */
    method SendAsyncTasks(admitted: bool)
      requires Valid() && !executing
      modifies this`flags, this`entries
      ensures Valid()
      ensures flags == if AsyncTaskRunning in old(flags) || admitted then old(flags) + {AsyncTaskRunning}
                       else old(flags)
    {
      if AsyncTaskRunning in flags {
        assert flags == flags + {AsyncTaskRunning};
        return;
      }
      flags := flags + {AsyncTaskRunning};
      entries := entries + 1;
      if !admitted {
        entries := entries - 1;
        flags := flags - {AsyncTaskRunning};
      }
    }

    method AddAsyncTask(task: Task, admitted: bool)
      requires Valid()
      modifies this`asyncTasks, this`flags, this`entries
      ensures Valid() && asyncTasks == old(asyncTasks) + [task]
      ensures flags == if !executing && admitted then old(flags) + {AsyncTaskRunning} else old(flags)
      ensures executing ==> entries == old(entries)
    {
      asyncTasks := asyncTasks + [task];
      if !executing && AsyncTaskRunning !in flags {
        SendAsyncTasks(admitted);
      } else {
        assert !executing ==> flags == flags + {AsyncTaskRunning};
      }
    }

    /** Raising or lowering a working flag; `AsyncTaskRunning` itself is only lowered, and only by a rollback. */
    method SetAsyncTaskFlag(flag: Flag, v: bool, admitted: bool)
      requires Valid() && flag != AsyncTaskRunning
      modifies this`flags, this`deferred, this`entries
      ensures Valid()
      ensures v && executing ==> flags == old(flags) + {flag} && deferred == old(deferred) + {flag}
      ensures v && !executing ==>
        flags == old(flags) + {flag} + if admitted then {AsyncTaskRunning} else {}
      ensures !v ==> flags == old(flags) - {flag} && deferred == old(deferred) - {flag}
    {
      if v {
        var scheduled := AsyncTaskRunning in flags;
        flags := flags + {flag};
        if executing {
          deferred := deferred + {flag};
          return;
        }
        if !scheduled {
          SendAsyncTasks(admitted);
        } else {
          assert flags == flags + {AsyncTaskRunning};
        }
      } else {
        flags := flags - {flag};
        if executing {
          deferred := deferred - {flag};
        }
      }
    }

    /** The callbacks of code that runs inside `executeAsyncTasks`. */
    method Perform(acts: seq<Act>, ghost before: seq<Act>)
      requires executing && entries == 0 && forall a | a in acts :: a.Add? || a.flag != AsyncTaskRunning
      requires asyncTasks == Added(before) && deferred == Deferred(before)
      modifies this`asyncTasks, this`flags, this`deferred, this`entries
      ensures entries == 0
      ensures asyncTasks == Added(before + acts) && deferred == Deferred(before + acts)
    {
      assert before + acts[..0] == before;
      for i := 0 to |acts|
        invariant entries == 0 && asyncTasks == Added(before + acts[..i]) && deferred == Deferred(before + acts[..i])
      {
        ActsSnoc(before + acts[..i], acts[i]);
        assert before + acts[..i + 1] == before + acts[..i] + [acts[i]];
        assert acts[i] in acts;
        match acts[i]
        case Add(task) => AddAsyncTask(task, true);
        case Raise(flag) => SetAsyncTaskFlag(flag, true, true);
        case Lower(flag) => SetAsyncTaskFlag(flag, false, true);
      }
      assert acts[..|acts|] == acts;
    }

    /**
     Main result, snapshot execution. A live creature runs the tasks present at entry once each, in
     order; what they add, and the flags they raise and do not lower, is exactly what is left, and the
     creature is queued again if there is any and the dispatcher admits it. A dead one loses its work.
     */
    method ExecuteAsyncTasks(alive: bool, script: Script, follow: seq<Act>, onExecute: seq<Act>, admitted: bool)
      requires Valid() && !executing && AsyncTaskRunning in flags
      requires forall t, a | a in script(t) :: a.Add? || a.flag != AsyncTaskRunning
      requires forall a | a in follow + onExecute :: a.Add? || a.flag != AsyncTaskRunning
      modifies this
      ensures Valid() && !executing
      ensures executed == old(executed) + if alive then old(asyncTasks) else []
      ensures
        var acts := if !alive then []
          else ActsOf(script, old(asyncTasks)) + (if Pathfinder in old(flags) then follow else []) + onExecute;
        && asyncTasks == Added(acts)
        && flags == Deferred(acts)
                    + if (asyncTasks != [] || Deferred(acts) != {}) && admitted then {AsyncTaskRunning} else {}
    {
      entries := 0;    // the batch has taken the entry out of its bucket
      var currentTasks := asyncTasks;
      asyncTasks := [];
      var currentFlags := flags - {AsyncTaskRunning};
      deferred := {};
      executing := true;
      ghost var acts: seq<Act> := [];

      if alive {
        for i := 0 to |currentTasks|
          invariant executing && entries == 0 && executed == old(executed) + currentTasks[..i]
          invariant acts == ActsOf(script, currentTasks[..i])
          invariant asyncTasks == Added(acts) && deferred == Deferred(acts)
        {
          var task := currentTasks[i];
          assert currentTasks[..i + 1][..i] == currentTasks[..i];
          executed := executed + [task];
          Perform(script(task), acts);
          acts := acts + script(task);
        }
        assert currentTasks[..|currentTasks|] == currentTasks;
        flags := {AsyncTaskRunning} + currentFlags;
        if Pathfinder in currentFlags {
          Perform(follow, acts);
          acts := acts + follow;
        } else {
          assert acts + [] == acts;
        }
        Perform(onExecute, acts);
        acts := acts + onExecute;
      }

      executing := false;
      var deferredFlags := deferred;
      deferred := {};
      flags := deferredFlags;
      DeferredIsRaisedLast(acts, AsyncTaskRunning);
      if asyncTasks != [] || deferredFlags != {} {
        SendAsyncTasks(admitted);
      } else {
        flags := {};
      }
    }
  }
}
