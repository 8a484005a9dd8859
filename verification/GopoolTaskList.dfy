/** The hand-linked task list of the goroutine pool on the heap, with task nodes
    recycled through one free pool shared by all goroutine pools
    (pkg/gopool/pool.go lines 38-60 and 115-127, worker.go lines 41-56 and 70).

    Each method is one critical section or one call on the free pool. */
module GopoolTaskList {
  datatype Func = NilFunc | Func(id: nat)

  class Task {
    var f: Func
    var next: Task?

    constructor ()
      ensures f == NilFunc && next == null
    {
      f, next := NilFunc, null;
    }

    method Zero()
      modifies this
      ensures f == NilFunc && next == null
    {
      f := NilFunc;
      next := null;
    }
  }

  /** sync.Pool: Get may hand out any task that was put back, or a new one. */
  class TaskPool {
    ghost var free: set<Task>
    var items: seq<Task>

    ghost predicate Valid()
      reads this, free
    {
      && (forall t | t in items :: t in free)
      && (forall i, j | 0 <= i < j < |items| :: items[i] != items[j])
      && (forall t | t in free :: t.f == NilFunc && t.next == null)
    }

    constructor ()
      ensures Valid() && free == {} && items == []
    {
      free, items := {}, [];
    }

    /** choice stands for the runtime's scheduling: which cached item, if any, is found. */
    method Get(choice: nat) returns (t: Task)
      requires Valid()
      modifies this
      ensures Valid() && t !in free && t.f == NilFunc && t.next == null
      ensures t in old(free) || fresh(t)
      ensures free == old(free) - {t}
      ensures choice < |old(items)| ==> t == old(items)[choice]
    {
      if choice < |items| {
        t := items[choice];
        items := items[..choice] + items[choice + 1..];
        free := free - {t};
      } else {
        t := new Task();
      }
    }

    method Put(t: Task)
      requires Valid() && t !in free && t.f == NilFunc && t.next == null
      modifies this
      ensures Valid() && free == old(free) + {t} && items == old(items) + [t]
    {
      items := items + [t];
      free := free + {t};
    }
  }

  class Pool {
    var taskHead: Task?
    var taskTail: Task?
    ghost var nodes: seq<Task>

    /** nodes is the list hanging off taskHead. Nothing is said of taskTail when the list is
        empty: it still points to the last node that was taken. */
    ghost predicate Valid()
      reads this, nodes
    {
      && (taskHead == null <==> nodes == [])
      && (nodes != [] ==> taskHead == nodes[0] && taskTail == nodes[|nodes| - 1] && taskTail.next == null)
      && (forall i | 0 <= i < |nodes| - 1 :: nodes[i].next == nodes[i + 1])
      && (forall i, j | 0 <= i < j < |nodes| :: nodes[i] != nodes[j])
    }

    constructor ()
      ensures Valid() && nodes == []
    {
      taskHead, taskTail, nodes := null, null, [];
    }

    /** The critical section of CtxGo. A stale taskTail is not written through. */
    method Append(t: Task)
      requires Valid() && t !in nodes && t.next == null
      modifies this, (if taskHead == null then {} else {taskTail})
      ensures Valid() && nodes == old(nodes) + [t]
      ensures forall n: Task | old(allocated(n)) :: n.f == old(n.f)
    {
      if taskHead == null {
        taskHead := t;
        taskTail := t;
      } else {
        taskTail.next := t;
        taskTail := t;
      }
      nodes := nodes + [t];
    }

    /** The critical section of worker.run; taskTail is left as it is. */
    method Take() returns (t: Task?)
      requires Valid()
      modifies this
      ensures Valid() && taskTail == old(taskTail)
      ensures old(nodes) == [] ==> t == null && nodes == []
      ensures old(nodes) != [] ==> t == old(nodes)[0] && nodes == old(nodes)[1..]
      ensures t != null ==> t in old(nodes) && t !in nodes && forall n | n in nodes :: n in old(nodes)
    {
      t := null;
      if taskHead != null {
        t := taskHead;
        assert |nodes| > 1 ==> nodes[0].next == nodes[0 + 1];
        taskHead := taskHead.next;
        nodes := nodes[1..];
        assert forall i | 0 <= i < |nodes| :: nodes[i] == old(nodes)[i + 1];
      }
    }
  }

  /** All goroutine pools of the process, the free pool they share, and the tasks held by one
      goroutine: fetched and not yet linked, or taken and not yet recycled. */
  class Process {
    const taskPool: TaskPool
    ghost var pools: set<Pool>
    ghost var held: set<Task>
    ghost var tasks: set<Task>  // every node ever allocated

    /** The nodes p lists are neither free nor held. */
    ghost predicate Listed(p: Pool)
      reads this, taskPool, p
    {
      forall t | t in p.nodes :: t in tasks && t !in taskPool.free && t !in held
    }

    ghost predicate Apart(p: Pool, q: Pool)
      reads p, q
    {
      forall t | t in p.nodes :: t !in q.nodes
    }

    ghost predicate Valid()
      reads this, taskPool, pools, tasks
    {
      && taskPool.free <= tasks && held <= tasks && taskPool.free !! held
      && (forall p | p in pools :: Listed(p))
      && (forall p, q | p in pools && q in pools && p != q :: Apart(p, q))
      && taskPool.Valid()
      && (forall p | p in pools :: p.Valid())
    }

    constructor ()
      ensures Valid() && fresh(taskPool) && pools == {} && held == {}
    {
      taskPool := new TaskPool();
      pools, held, tasks := {}, {}, {};
    }

    method NewPool() returns (p: Pool)
      requires Valid()
      modifies this
      ensures Valid() && fresh(p) && pools == old(pools) + {p} && p.nodes == []
    {
      p := new Pool();
      pools := pools + {p};
    }

    /** CtxGo lines 116-118: the caller now owns a zeroed node with its function in it. */
    method Fetch(f: Func, choice: nat) returns (t: Task)
      requires Valid()
      modifies this`held, this`tasks, taskPool, taskPool.free
      ensures Valid() && pools == old(pools) && t !in old(held) && held == old(held) + {t}
      ensures t.f == f && t.next == null
      ensures forall q | q in pools :: q.nodes == old(q.nodes) && forall n | n in q.nodes :: n.f == old(n.f)
    {
      t := taskPool.Get(choice);
      tasks, held := tasks + {t}, held + {t};
      t.f := f;
      assert forall q | q in pools :: q.Valid() && q.nodes == old(q.nodes) && t !in q.nodes;
    }

    /** CtxGo lines 119-127: t goes to the back of p's list. The only node written is the
        last one of p's own list, whatever a stale p.taskTail points to. */
    method Link(p: Pool, t: Task)
      requires Valid() && p in pools && t in held && t.next == null
      modifies this`held, p, p.nodes
      ensures Valid() && pools == old(pools) && held == old(held) - {t}
      ensures p.nodes == old(p.nodes) + [t] && forall n | n in p.nodes :: n.f == old(n.f)
      ensures forall q | q in pools && q != p :: q.nodes == old(q.nodes) && forall n | n in q.nodes :: n.f == old(n.f)
    {
      assert p.taskHead != null ==> p.taskTail in p.nodes;
      p.Append(t);
      held := held - {t};
      forall q | q in pools
        ensures q.Valid() && Listed(q) && (q != p ==> q.nodes == old(q.nodes))
      {
        assert old(q.Valid()) && old(Listed(q));
        if q != p { assert old(Apart(p, q)); }
      }
      forall q, r | q in pools && r in pools && q != r ensures Apart(q, r) {
        assert old(Apart(q, r)) && old(Listed(q)) && old(Listed(r));
      }
    }

    /** A worker of p takes a task: the oldest one. */
    method Take(p: Pool) returns (t: Task?)
      requires Valid() && p in pools
      modifies this`held, p
      ensures Valid() && pools == old(pools)
      ensures t == null <==> old(p.nodes) == []
      ensures t == null ==> p.nodes == [] && held == old(held)
      ensures t != null ==> held == old(held) + {t} && t !in old(held)
      ensures t != null ==> old(p.nodes) != [] && t == old(p.nodes)[0] && p.nodes == old(p.nodes)[1..]
    {
      t := p.Take();
      if t != null { held := held + {t}; }
      forall q | q in pools ensures q.Valid() && Listed(q) {
        assert old(q.Valid()) && old(Listed(q));
        if q != p { assert old(Apart(p, q)); }
      }
      forall q, r | q in pools && r in pools && q != r ensures Apart(q, r) { assert old(Apart(q, r)); }
    }

    /** The worker has run t.f: the node is zeroed and given back. */
    method Recycle(t: Task)
      requires Valid() && t in held
      modifies this`held, taskPool, t
      ensures Valid() && pools == old(pools) && held == old(held) - {t}
      ensures forall q | q in pools :: q.nodes == old(q.nodes) && forall n | n in q.nodes :: n.f == old(n.f)
    {
      held := held - {t};
      t.Zero();
      taskPool.Put(t);
    }
  }
}
