/** `startPolling` and the loop that repeats it. One cycle walks the course
    catalog in order; for each course it takes the first pending task the
    course's name matches, looks for the first of the course's events on
    that task's date and time, and on a hit removes the task from the
    pending array and launches the placement of its athletes. The two
    remote queries are given as their answers (the catalog and a map from
    course id to events); a launch is recorded in a log. */
module Polling {
  import opened Wrappers
  import opened Records
  import opened Matcher
  import opened Seqs

  /** A `placeAthletes(fetcher, event, task)` started without being awaited. */
  datatype Launch = Launch(task: Task, event: Event)

  /** The pending tasks after some courses were visited, and what was launched. */
  datatype CycleResult = CycleResult(pending: seq<Task>, launched: seq<Launch>)

  /** The events the availability query returns for a course; a course the
      map does not mention has none. */
  function Availability(events: map<string, seq<Event>>, courseId: string): seq<Event>
  {
    if courseId in events then events[courseId] else []
  }

  /** The body of the `for (const course of courses)` loop. */
  function Visit(pending: seq<Task>, course: Course, events: map<string, seq<Event>>): CycleResult
  {
    var i := FindTask(pending, course);
    if i == |pending| then CycleResult(pending, [])
    else
      match FindEvent(Availability(events, course.id), pending[i])
      case None => CycleResult(pending, [])
      case Some(e) => CycleResult(pending[..i] + pending[i + 1..], [Launch(pending[i], e)])
  }

  /** One `startPolling` cycle over the first `|courses|` courses of the catalog. */
  function Cycle(tasks: seq<Task>, courses: seq<Course>, events: map<string, seq<Event>>): CycleResult
    decreases |courses|
  {
    if courses == [] then CycleResult(tasks, [])
    else
      var prev := Cycle(tasks, courses[..|courses| - 1], events);
      var v := Visit(prev.pending, courses[|courses| - 1], events);
      CycleResult(v.pending, prev.launched + v.launched)
  }

  function LaunchedTasks(l: seq<Launch>): (r: seq<Task>)
    ensures |r| == |l| && forall j :: 0 <= j < |l| ==> r[j] == l[j].task
  {
    seq(|l|, j requires 0 <= j < |l| => l[j].task)
  }

  lemma LaunchedTasksAppend(a: seq<Launch>, b: seq<Launch>)
    ensures LaunchedTasks(a + b) == LaunchedTasks(a) + LaunchedTasks(b)
  {
  }

  /** The launch is warranted by the course: the course's name matches the
      task, and the event is one of the course's events on the task's date
      and time. */
  predicate Justified(launch: Launch, course: Course, events: map<string, seq<Event>>)
  {
    && CourseAndTaskMatch(course, launch.task)
    && launch.event in Availability(events, course.id)
    && CourseAndEventMatch(launch.event, launch.task)
  }

  /** A course launches at most one task: the first pending task its name
      matches, and exactly when one of its events is on that task's date and
      time, with the first such event. That task, and nothing else, leaves
      the pending array. */
  lemma VisitSpec(pending: seq<Task>, course: Course, events: map<string, seq<Event>>)
    ensures var v := Visit(pending, course, events);
      var i := FindTask(pending, course);
      && |v.launched| <= 1
      && (v.launched == [] ==> v.pending == pending)
      && (v.launched != [] <==>
            i < |pending| &&
            exists e :: e in Availability(events, course.id) && CourseAndEventMatch(e, pending[i]))
      && (v.launched != [] ==>
            && v.pending == pending[..i] + pending[i + 1..]
            && v.launched[0] == Launch(pending[i], FindEvent(Availability(events, course.id), pending[i]).value)
            && Justified(v.launched[0], course, events)
            && var es := Availability(events, course.id);
               exists k :: 0 <= k < |es| && es[k] == v.launched[0].event &&
                 forall j :: 0 <= j < k ==> !CourseAndEventMatch(es[j], pending[i]))
  {
  }

  /** A visit only removes, keeps the order of the rest, and launches exactly
      what it removes. */
  lemma VisitShrinks(pending: seq<Task>, course: Course, events: map<string, seq<Event>>)
    ensures var v := Visit(pending, course, events);
      && Subseq(v.pending, pending)
      && multiset(pending) == multiset(v.pending) + multiset(LaunchedTasks(v.launched))
  {
    var v := Visit(pending, course, events);
    VisitSpec(pending, course, events);
    if v.launched == [] {
      SubseqRefl(pending);
    } else {
      var i := FindTask(pending, course);
      SubseqRemoveAt(pending, i);
      RemoveAtMultiset(pending, i);
      assert LaunchedTasks(v.launched) == [pending[i]];
    }
  }

  /** A cycle only shrinks the pending array, keeps the survivors in their
      order, launches every removed task exactly once, and launches at most
      one task per course. */
  lemma {:induction false} CycleShrinks(tasks: seq<Task>, courses: seq<Course>, events: map<string, seq<Event>>)
    ensures Subseq(Cycle(tasks, courses, events).pending, tasks)
    ensures multiset(tasks) ==
      multiset(Cycle(tasks, courses, events).pending) + multiset(LaunchedTasks(Cycle(tasks, courses, events).launched))
    ensures |Cycle(tasks, courses, events).launched| <= |courses|
    decreases |courses|
  {
    if courses == [] {
      SubseqRefl(tasks);
    } else {
      var init := courses[..|courses| - 1];
      var prev := Cycle(tasks, init, events);
      var v := Visit(prev.pending, courses[|courses| - 1], events);
      CycleShrinks(tasks, init, events);
      VisitShrinks(prev.pending, courses[|courses| - 1], events);
      VisitSpec(prev.pending, courses[|courses| - 1], events);
      SubseqTrans(v.pending, prev.pending, tasks);
      LaunchedTasksAppend(prev.launched, v.launched);
    }
  }

  /** Every launch of a cycle is warranted by some course of the catalog. */
  lemma {:induction false} CycleJustified(tasks: seq<Task>, courses: seq<Course>, events: map<string, seq<Event>>)
    ensures forall j :: 0 <= j < |Cycle(tasks, courses, events).launched| ==>
      exists k :: 0 <= k < |courses| && Justified(Cycle(tasks, courses, events).launched[j], courses[k], events)
    decreases |courses|
  {
    if courses != [] {
      var n := |courses| - 1;
      var init := courses[..n];
      var prev := Cycle(tasks, init, events);
      var v := Visit(prev.pending, courses[n], events);
      var l := prev.launched + v.launched;
      CycleJustified(tasks, init, events);
      VisitSpec(prev.pending, courses[n], events);
      forall j | 0 <= j < |l|
        ensures exists k :: 0 <= k < |courses| && Justified(l[j], courses[k], events)
      {
        if j < |prev.launched| {
          var k :| 0 <= k < |init| && Justified(prev.launched[j], init[k], events);
          assert courses[k] == init[k];
        } else {
          assert l[j] == v.launched[0];
          assert Justified(l[j], courses[n], events);
        }
      }
      assert Cycle(tasks, courses, events).launched == l;
    } else {
      assert Cycle(tasks, courses, events).launched == [];
    }
  }

  /** A task whose name no course of the catalog matches keeps every one of
      its copies in the pending array. */
  lemma CycleNameMiss(tasks: seq<Task>, courses: seq<Course>, events: map<string, seq<Event>>, t: Task)
    requires forall k :: 0 <= k < |courses| ==> !CourseAndTaskMatch(courses[k], t)
    ensures multiset(Cycle(tasks, courses, events).pending)[t] == multiset(tasks)[t]
  {
    var c := Cycle(tasks, courses, events);
    CycleShrinks(tasks, courses, events);
    CycleJustified(tasks, courses, events);
    var lt := LaunchedTasks(c.launched);
    assert t !in lt by {
      forall j | 0 <= j < |lt| ensures lt[j] != t {
        var k :| 0 <= k < |courses| && Justified(c.launched[j], courses[k], events);
      }
    }
  }

  // ---------------------------------------------------------------------
  // The loop `while (continueTrying(tasks)) await startPolling(fetcher, tasks)`

  /** `continueTrying`: poll again while some task is still pending. */
  predicate ContinueTrying(tasks: seq<Task>)
  {
    |tasks| > 0
  }

  /** The answers the two queries give in one cycle. */
  datatype Snapshot = Snapshot(courses: seq<Course>, events: map<string, seq<Event>>)

  datatype RunResult = RunResult(pending: seq<Task>, launched: seq<Launch>, cycles: nat)

  /** The cycles run while tasks remain, one snapshot of the remote service
      per cycle, until the tasks or the snapshots run out. */
  function RunCycles(tasks: seq<Task>, snapshots: seq<Snapshot>): RunResult
    decreases |snapshots|
  {
    if !ContinueTrying(tasks) || snapshots == [] then RunResult(tasks, [], 0)
    else
      var c := Cycle(tasks, snapshots[0].courses, snapshots[0].events);
      var rest := RunCycles(c.pending, snapshots[1..]);
      RunResult(rest.pending, c.launched + rest.launched, rest.cycles + 1)
  }

  /** The loop stops only when no task is pending or no snapshot is left; it
      only shrinks the pending array, keeping the survivors' order; and every
      task that leaves it is launched exactly once in the whole run. */
  lemma {:induction false} RunShrinks(tasks: seq<Task>, snapshots: seq<Snapshot>)
    ensures RunCycles(tasks, snapshots).cycles <= |snapshots|
    ensures RunCycles(tasks, snapshots).pending == [] || RunCycles(tasks, snapshots).cycles == |snapshots|
    ensures Subseq(RunCycles(tasks, snapshots).pending, tasks)
    ensures multiset(tasks) ==
      multiset(RunCycles(tasks, snapshots).pending) + multiset(LaunchedTasks(RunCycles(tasks, snapshots).launched))
    decreases |snapshots|
  {
    if !ContinueTrying(tasks) || snapshots == [] {
      SubseqRefl(tasks);
    } else {
      var c := Cycle(tasks, snapshots[0].courses, snapshots[0].events);
      var rest := RunCycles(c.pending, snapshots[1..]);
      CycleShrinks(tasks, snapshots[0].courses, snapshots[0].events);
      RunShrinks(c.pending, snapshots[1..]);
      SubseqTrans(rest.pending, c.pending, tasks);
      LaunchedTasksAppend(c.launched, rest.launched);
    }
  }

  /** A task whose name no course of any cycle's catalog matches is still
      pending, every copy of it, when the loop stops. */
  lemma {:induction false} RunNameMiss(tasks: seq<Task>, snapshots: seq<Snapshot>, t: Task)
    requires forall s, k :: 0 <= s < |snapshots| && 0 <= k < |snapshots[s].courses| ==>
      !CourseAndTaskMatch(snapshots[s].courses[k], t)
    ensures multiset(RunCycles(tasks, snapshots).pending)[t] == multiset(tasks)[t]
    decreases |snapshots|
  {
    if ContinueTrying(tasks) && snapshots != [] {
      var c := Cycle(tasks, snapshots[0].courses, snapshots[0].events);
      CycleNameMiss(tasks, snapshots[0].courses, snapshots[0].events, t);
      assert forall s, k :: 0 <= s < |snapshots[1..]| && 0 <= k < |snapshots[1..][s].courses| ==>
        !CourseAndTaskMatch(snapshots[1..][s].courses[k], t) by {
        forall s, k | 0 <= s < |snapshots[1..]| && 0 <= k < |snapshots[1..][s].courses|
          ensures !CourseAndTaskMatch(snapshots[1..][s].courses[k], t)
        {
          assert snapshots[1..][s] == snapshots[s + 1];
        }
      }
      RunNameMiss(c.pending, snapshots[1..], t);
    }
  }

  lemma CycleSnoc(tasks: seq<Task>, courses: seq<Course>, n: nat, events: map<string, seq<Event>>)
    requires n < |courses|
    ensures var prev := Cycle(tasks, courses[..n], events);
      var v := Visit(prev.pending, courses[n], events);
      Cycle(tasks, courses[..n + 1], events) == CycleResult(v.pending, prev.launched + v.launched)
  {
    assert courses[..n + 1][..n] == courses[..n];
  }

  /** One more cycle of the run from snapshot `i` on. */
  lemma RunAdvance(tasks: seq<Task>, snapshots: seq<Snapshot>, i: nat)
    requires ContinueTrying(tasks) && i < |snapshots|
    ensures var c := Cycle(tasks, snapshots[i].courses, snapshots[i].events);
      var rest := RunCycles(c.pending, snapshots[i + 1..]);
      RunCycles(tasks, snapshots[i..]) == RunResult(rest.pending, c.launched + rest.launched, rest.cycles + 1)
  {
    assert snapshots[i..][0] == snapshots[i] && snapshots[i..][1..] == snapshots[i + 1..];
  }

  /** The run stops once no task is pending or no snapshot is left. */
  lemma RunDone(tasks: seq<Task>, snapshots: seq<Snapshot>, i: nat)
    requires i <= |snapshots|
    requires !ContinueTrying(tasks) || i == |snapshots|
    ensures RunCycles(tasks, snapshots[i..]) == RunResult(tasks, [], 0)
  {
    if i == |snapshots| {
      assert snapshots[i..] == [];
    }
  }

  /** After `done` cycles, with `tasks` pending and `log` recorded, the rest
      of the run completes the whole run `total` begun with the log `log0`. */
  predicate Completes(total: RunResult, log0: seq<Launch>, tasks: seq<Task>, log: seq<Launch>,
                      snapshots: seq<Snapshot>, done: nat)
    requires done <= |snapshots|
  {
    var rest := RunCycles(tasks, snapshots[done..]);
    && total.pending == rest.pending
    && log0 + total.launched == log + rest.launched
    && total.cycles == done + rest.cycles
  }

  /** One more cycle keeps the run on course. */
  lemma CompletesStep(total: RunResult, log0: seq<Launch>, tasks: seq<Task>, log: seq<Launch>,
                      snapshots: seq<Snapshot>, done: nat)
    requires done < |snapshots| && ContinueTrying(tasks)
    requires Completes(total, log0, tasks, log, snapshots, done)
    ensures var c := Cycle(tasks, snapshots[done].courses, snapshots[done].events);
      Completes(total, log0, c.pending, log + c.launched, snapshots, done + 1)
  {
    var c := Cycle(tasks, snapshots[done].courses, snapshots[done].events);
    var next := RunCycles(c.pending, snapshots[done + 1..]);
    RunAdvance(tasks, snapshots, done);
    assert log + (c.launched + next.launched) == (log + c.launched) + next.launched;
  }

  /** Once the loop condition fails, the state is that of the whole run. */
  lemma CompletesEnd(total: RunResult, log0: seq<Launch>, tasks: seq<Task>, log: seq<Launch>,
                     snapshots: seq<Snapshot>, done: nat)
    requires done <= |snapshots| && (!ContinueTrying(tasks) || done == |snapshots|)
    requires Completes(total, log0, tasks, log, snapshots, done)
    ensures total.pending == tasks && log0 + total.launched == log && total.cycles == done
  {
    RunDone(tasks, snapshots, done);
  }

  // ---------------------------------------------------------------------
  // The pending array and the launch log as state

  /** The scheduler's invariant survives a cycle. */
  lemma CycleKeepsValid(tasks: seq<Task>, launched: seq<Launch>, initial: seq<Task>,
                        courses: seq<Course>, events: map<string, seq<Event>>)
    requires Subseq(tasks, initial)
    requires multiset(initial) == multiset(tasks) + multiset(LaunchedTasks(launched))
    ensures var c := Cycle(tasks, courses, events);
      && Subseq(c.pending, initial)
      && multiset(initial) == multiset(c.pending) + multiset(LaunchedTasks(launched + c.launched))
  {
    var c := Cycle(tasks, courses, events);
    CycleShrinks(tasks, courses, events);
    SubseqTrans(c.pending, tasks, initial);
    LaunchedTasksAppend(launched, c.launched);
  }

  /** The shared `tasks` array the polling loop splices, and the log of the
      placements it has started. */
  class Scheduler {
    var tasks: seq<Task>
    var launched: seq<Launch>
    /** The tasks loaded at the start of the run. */
    ghost var initial: seq<Task>

    /** The pending array only ever lost tasks, keeping the order of the rest,
        and each task it lost was launched exactly once. */
    ghost predicate Valid()
      reads this
    {
      && Subseq(tasks, initial)
      && multiset(initial) == multiset(tasks) + multiset(LaunchedTasks(launched))
    }

    constructor(tasks: seq<Task>)
      ensures Valid()
      ensures this.tasks == tasks && launched == [] && initial == tasks
    {
      this.tasks := tasks;
      launched := [];
      initial := tasks;
      new;
      SubseqRefl(tasks);
    }

    /** One `startPolling(fetcher, tasks)` against the given answers. */
    method StartPolling(courses: seq<Course>, events: map<string, seq<Event>>)
      requires Valid()
      modifies this
      ensures Valid() && initial == old(initial)
      ensures tasks == Cycle(old(tasks), courses, events).pending
      ensures launched == old(launched) + Cycle(old(tasks), courses, events).launched
    {
      var pending := tasks;
      var started: seq<Launch> := [];
      for n := 0 to |courses|
        invariant unchanged(this)
        invariant pending == Cycle(old(tasks), courses[..n], events).pending
        invariant started == Cycle(old(tasks), courses[..n], events).launched
      {
        CycleSnoc(old(tasks), courses, n, events);
        var course := courses[n];
        var taskIndex := FindTask(pending, course);
        if taskIndex < |pending| {
          var task := pending[taskIndex];
          var event := FindEvent(Availability(events, course.id), task);
          if event.Some? {
            pending := pending[..taskIndex] + pending[taskIndex + 1..];
            started := started + [Launch(task, event.value)];
          }
        }
      }
      tasks := pending;
      launched := launched + started;
      assert courses[..|courses|] == courses;
      CycleKeepsValid(old(tasks), old(launched), initial, courses, events);
    }

    /** The outer loop: a cycle per snapshot while some task is pending. */
    method Run(snapshots: seq<Snapshot>) returns (cycles: nat)
      requires Valid()
      modifies this
      ensures Valid() && initial == old(initial)
      ensures tasks == RunCycles(old(tasks), snapshots).pending
      ensures launched == old(launched) + RunCycles(old(tasks), snapshots).launched
      ensures cycles == RunCycles(old(tasks), snapshots).cycles
    {
      cycles := 0;
      ghost var total := RunCycles(tasks, snapshots);
      ghost var log0 := launched;
      assert snapshots[0..] == snapshots;
      while ContinueTrying(tasks) && cycles < |snapshots|
        invariant Valid() && initial == old(initial)
        invariant cycles <= |snapshots|
        invariant Completes(total, log0, tasks, launched, snapshots, cycles)
        decreases |snapshots| - cycles
      {
        CompletesStep(total, log0, tasks, launched, snapshots, cycles);
        StartPolling(snapshots[cycles].courses, snapshots[cycles].events);
        cycles := cycles + 1;
      }
      CompletesEnd(total, log0, tasks, launched, snapshots, cycles);
    }
  }
}
