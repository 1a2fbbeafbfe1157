/** The task queue of `thread_pool/`.  Taking from an empty queue gives the null task. */
module TaskQueue {
  import opened Readings

  // `None` is the task whose function pointer is null.
  function Taken<T>(queue: seq<T>): (Option<T>, seq<T>) {
    if queue == [] then (None, queue) else (Some(queue[0]), queue[1..])
  }

  class TaskQueue<T> {
    var m_taskQ: seq<T>

    constructor ()
      ensures m_taskQ == []
    {
      m_taskQ := [];
    }

    method AddTask(task: T)
      modifies this
      ensures m_taskQ == old(m_taskQ) + [task]
    {
      m_taskQ := m_taskQ + [task];
    }

    method TakeTast() returns (t: Option<T>)
      modifies this
      ensures old(m_taskQ) == [] ==> t == None && m_taskQ == []
      ensures old(m_taskQ) != [] ==> t == Some(old(m_taskQ[0])) && old(m_taskQ) == [t.value] + m_taskQ
      ensures (t, m_taskQ) == Taken(old(m_taskQ))
    {
      t := None;
      if m_taskQ != [] {
        t := Some(m_taskQ[0]);
        m_taskQ := m_taskQ[1..];
      }
    }
  }
}
