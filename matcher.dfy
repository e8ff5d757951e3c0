/** `courseAndTaskMatch`, `courseAndEventMatch`, and the two searches that
    the polling cycle runs with them (`Array.prototype.findIndex` over the
    pending tasks, `Array.prototype.find` over a course's events). */
module Matcher {
  import opened Wrappers
  import opened Text
  import opened Records

  /** The course's name, lower-cased, equals the task's (already lower-cased) name. */
  predicate CourseAndTaskMatch(course: Course, task: Task)
  {
    Lower(course.name) == task.name
  }

  /** The event falls on the task's date and time, compared as text. */
  predicate CourseAndEventMatch(event: Event, task: Task)
  {
    event.day == task.date && event.time == task.time
  }

  /** `tasks.findIndex(t => courseAndTaskMatch(course, t))`, with `|tasks|`
      standing for -1: the first pending task the course matches. */
  function FindTask(tasks: seq<Task>, course: Course): (i: nat)
    ensures i <= |tasks|
    ensures i < |tasks| ==> CourseAndTaskMatch(course, tasks[i])
    ensures forall j :: 0 <= j < i ==> !CourseAndTaskMatch(course, tasks[j])
  {
    if tasks == [] then 0
    else if CourseAndTaskMatch(course, tasks[0]) then 0
    else 1 + FindTask(tasks[1..], course)
  }

  /** The position of the first event on the task's date and time, or
      `|events|` when there is none. */
  function FindEventIndex(events: seq<Event>, task: Task): (i: nat)
    ensures i <= |events|
    ensures i < |events| ==> CourseAndEventMatch(events[i], task)
    ensures forall j :: 0 <= j < i ==> !CourseAndEventMatch(events[j], task)
  {
    if events == [] then 0
    else if CourseAndEventMatch(events[0], task) then 0
    else 1 + FindEventIndex(events[1..], task)
  }

  /** `events.find(e => courseAndEventMatch(e, task))`: the first event on
      the task's date and time, or `None` (`undefined`). */
  function FindEvent(events: seq<Event>, task: Task): (r: Option<Event>)
    ensures r.None? <==> forall e :: e in events ==> !CourseAndEventMatch(e, task)
    ensures r.Some? ==> r.value in events && CourseAndEventMatch(r.value, task)
    ensures r.Some? ==>
      exists i :: 0 <= i < |events| && events[i] == r.value &&
        forall j :: 0 <= j < i ==> !CourseAndEventMatch(events[j], task)
  {
    var i := FindEventIndex(events, task);
    if i < |events| then Some(events[i]) else None
  }
}
