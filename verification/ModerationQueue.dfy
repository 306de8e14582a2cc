/** The in-process moderation queue: a bounded priority queue with an unfinished count, a closed
    flag and a dead-letter list. */
module ModerationQueue {
  import opened Sequences
  import opened Wrappers

  /** A published task. `id` numbers the call that published it, `first` is its attempt count then,
      `handled` counts how often a handler was started for it, and `sequence` is its last place in line. */
  datatype Task = Task(id: nat, priority: int, attempts: nat, first: nat, handled: nat, sequence: nat)

  datatype Queue = Queue(items: seq<Task>, sequence: nat, unfinished: int, closed: bool, dead: seq<Task>)

  const EMPTY := Queue([], 0, 0, false, [])

  predicate Full(q: Queue, maxSize: nat) {
    maxSize > 0 && |q.items| >= maxSize
  }

  /** The order of the heap tuples. */
  predicate Before(a: Task, b: Task) {
    a.priority < b.priority || (a.priority == b.priority && a.sequence < b.sequence)
  }

  predicate IsLeast(items: seq<Task>, i: int) {
    0 <= i < |items| && forall j :: 0 <= j < |items| ==> !Before(items[j], items[i])
  }

  /** A least item has the lowest priority number of all, and of those the earliest place in line. */
  lemma LeastMeaning(items: seq<Task>, i: int)
    requires 0 <= i < |items|
    ensures IsLeast(items, i) <==> forall j :: 0 <= j < |items| ==>
      && items[i].priority <= items[j].priority
      && (items[i].priority == items[j].priority ==> items[i].sequence <= items[j].sequence)
  {
  }

  function Numbered(q: Queue): Queue {
    q.(sequence := q.sequence + 1)
  }

  function PutItem(q: Queue, t: Task): Queue {
    q.(items := q.items + [t], unfinished := q.unfinished + 1)
  }

  function TakeItem(q: Queue, i: nat): Queue
    requires i < |q.items|
  {
    q.(items := RemoveAt(q.items, i))
  }

  function Done(q: Queue): Queue {
    q.(unfinished := q.unfinished - 1)
  }

  function Buried(q: Queue, t: Task): Queue {
    q.(dead := q.dead + [t])
  }

  class ModerationQueue {
    const maxSize: nat
    var q: Queue

    constructor (maxSize: nat)
      ensures this.maxSize == maxSize && q == EMPTY
    {
      this.maxSize := maxSize;
      q := EMPTY;
    }

    /** `publish` up to the point where it may have to wait for room. */
    method BeginPublish(t: Task) returns (r: Result<Task>)
      modifies this`q
      ensures old(q).closed ==> r == Err(RuntimeError) && q == old(q)
      ensures !old(q).closed ==>
        r == Ok(t.(sequence := old(q).sequence)) && q == Numbered(old(q)) && q.sequence == old(q).sequence + 1
    {
      if q.closed {
        return Err(RuntimeError);
      }
      r := Ok(t.(sequence := q.sequence));
      q := q.(sequence := q.sequence + 1);
    }

    /** `publish` once there is room. */
    method EndPublish(t: Task)
      requires !Full(q, maxSize)
      modifies this`q
      ensures q == PutItem(old(q), t)
      ensures q.items == old(q).items + [t] && q.unfinished == old(q).unfinished + 1
    {
      q := q.(items := q.items + [t], unfinished := q.unfinished + 1);
    }

    /** `consume` once there is an item: a least one by priority and sequence. */
    method Consume() returns (t: Task, ghost i: nat)
      requires q.items != []
      modifies this`q
      ensures IsLeast(old(q).items, i) && t == old(q).items[i] && q == TakeItem(old(q), i)
      ensures forall other :: other in old(q).items ==>
        && t.priority <= other.priority
        && (t.priority == other.priority ==> t.sequence <= other.sequence)
    {
      var least := 0;
      for k := 1 to |q.items|
        invariant least < |q.items|
        invariant forall j :: 0 <= j < k ==> !Before(q.items[j], q.items[least])
      {
        if Before(q.items[k], q.items[least]) {
          least := k;
        }
      }
      t, i := q.items[least], least;
      q := q.(items := q.items[..least] + q.items[least + 1..]);
    }

    method TaskDone()
      modifies this`q
      ensures q == Done(old(q))
      ensures q.unfinished == old(q).unfinished - 1 && q.items == old(q).items
    {
      q := q.(unfinished := q.unfinished - 1);
    }

    method Close()
      modifies this`q
      ensures q == old(q).(closed := true)
    {
      q := q.(closed := true);
    }

    method DeadLetter(t: Task)
      modifies this`q
      ensures q == Buried(old(q), t)
      ensures q.dead == old(q).dead + [t] && q.items == old(q).items && q.unfinished == old(q).unfinished
    {
      q := q.(dead := q.dead + [t]);
    }
  }
}
