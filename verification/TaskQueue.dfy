/** The worker's task queue as the linked list it is. */
module TaskQueue {

  class Task {
    const id: int
    const sync: bool
    var next: Task?

    constructor (id: int, sync: bool)
      ensures this.id == id && this.sync == sync && next == null
    {
      this.id, this.sync, next := id, sync, null;
    }
  }

  class Queue {
    var head: Task?
    var tail: Task?
    ghost var tasks: seq<Task>

    ghost predicate Valid()
      reads this, tasks
    {
      && (forall i, j | 0 <= i < j < |tasks| :: tasks[i] != tasks[j])
      && (forall i {:trigger tasks[i].next} | 0 <= i < |tasks| - 1 :: tasks[i].next == tasks[i + 1])
      && (if tasks == [] then head == null && tail == null
          else head == tasks[0] && tail == tasks[|tasks| - 1] && tail.next == null)
    }

    constructor ()
      ensures Valid() && tasks == []
    {
      head, tail, tasks := null, null, [];
    }

    /** `worker_enqueue` */
    method Enqueue(task: Task)
      requires Valid() && task !in tasks
      modifies this, tail, task
      ensures Valid() && tasks == old(tasks) + [task]
    {
      task.next := null;
      if tail != null {
        tail.next := task;
      } else {
        head := task;
      }
      tail := task;
      tasks := tasks + [task];
    }

    /** `worker_dequeue` */
    method Dequeue() returns (task: Task?)
      requires Valid()
      modifies this
      ensures Valid()
      ensures task == null <==> old(tasks) == []
      ensures task != null ==> old(tasks) == [task] + tasks
      ensures task == null ==> tasks == []
    {
      task := head;
      if task != null {
        head := task.next;
        if head == null {
          tail := null;
        }
        tasks := tasks[1..];
      }
    }
  }
}
