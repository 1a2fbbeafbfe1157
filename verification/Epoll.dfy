/** The part of the kernel that the server relies on: which descriptors are open,
    which are registered with epoll, and which registered ones may still report an
    event.  All registrations are edge triggered and one-shot. */
module Epoll {

  datatype Rearm = ByAdd | ByMod

  datatype Epoll = Epoll(open: set<int>, registered: set<int>, armed: set<int>)

  predicate Consistent(e: Epoll) {
    e.armed <= e.registered <= e.open
  }

  // EPOLL_CTL_ADD fails with EEXIST on a registered descriptor, with EBADF on a closed one.
  function CtlAdd(e: Epoll, fd: int): Epoll {
    if fd in e.open && fd !in e.registered
    then e.(registered := e.registered + {fd}, armed := e.armed + {fd})
    else e
  }

  // EPOLL_CTL_MOD fails with ENOENT on a descriptor that is not registered.
  function CtlMod(e: Epoll, fd: int): Epoll {
    if fd in e.registered then e.(armed := e.armed + {fd}) else e
  }

  function ResetOneshot(how: Rearm, e: Epoll, fd: int): Epoll {
    match how
    case ByAdd => CtlAdd(e, fd)
    case ByMod => CtlMod(e, fd)
  }

  function CtlDel(e: Epoll, fd: int): Epoll {
    e.(registered := e.registered - {fd}, armed := e.armed - {fd})
  }

  // Closing a descriptor also removes its registration.
  function Close(e: Epoll, fd: int): Epoll {
    CtlDel(e, fd).(open := e.open - {fd})
  }

  function Opened(e: Epoll, fds: set<int>): Epoll {
    e.(open := e.open + fds)
  }

  // Reporting a one-shot event disarms its descriptor.
  function Fired(e: Epoll, fds: set<int>): Epoll {
    e.(armed := e.armed - fds)
  }
}
