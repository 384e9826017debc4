/** The kernel objects and error numbers the library is written against. */
module Kernel {

  datatype Option<T> = None | Some(value: T)

  /** Threads are numbered; a machine with n threads uses 0 .. n-1, for any n. */
  type Tid = nat

  datatype Errno = OK | EPERM | EBUSY | EINVAL | EAGAIN | EDEADLK | ETIMEDOUT

  const INT_MAX := 0x7fff_ffff

  /** How many values a 32-bit word has. */
  const RANGE := 0x1_0000_0000

  /** A kernel counting semaphore.  A waiter for n units proceeds when n units are there;
      signalling past the maximum is refused and changes nothing. */
  datatype Sema = Sema(count: nat, max: nat) {

    predicate Has(n: nat) { n <= count }

    function Take(n: nat): Sema
      requires Has(n)
    {
      this.(count := count - n)
    }

    predicate Fits(n: nat) { count + n <= max }

    function Signal(n: nat): Sema {
      if Fits(n) then this.(count := count + n) else this
    }
  }
}
