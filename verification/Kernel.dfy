/** What the kernel decides. */
module Kernel {
  /** A new descriptor is the lowest one not in use; callers learn only that it was free. */
  method FreshFd(open: set<int>) returns (fd: int)
    ensures fd !in open && fd >= 0
  {
    fd := 0;
    ghost var seen: set<int> := {};
    while fd in open
      invariant fd >= 0 && seen <= open && forall x :: x in seen ==> x < fd
      decreases open - seen
    {
      seen := seen + {fd};
      fd := fd + 1;
    }
  }
}
