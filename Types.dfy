/** Values shared by every part of the kernel: status codes, kernel modes,
    the unsigned 32-bit integer type, and an Option type. */
module Types {

  /** The conventional Some/None datatype, used where the C code returns or
      stores a pointer that may be NULL. */
  datatype Option<T> = None | Some(value: T)

  /** The status codes every fallible kernel call returns. */
  datatype Exception = OK | FAIL | NOT_EMPTY | DEADLINE_REACHED

  /** kernelMode: start-up mode (before run) and running mode. */
  datatype Mode = INIT | RUNNING

  /** Counter adjustments of a mailbox: a send-side entry counts +1, a
      receive-side entry counts -1. */
  const SENDER: int := 1
  const RECEIVER: int := -1

  const TWO32: int := 0x1_0000_0000

  /** The C type uint on the target (tick counter, deadlines, wake ticks). */
  type u32 = x: int | 0 <= x < TWO32

  /** Unsigned 32-bit addition, wrapping around as C's uint addition does. */
  function AddU32(a: u32, b: u32): (r: u32)
    ensures a + b < TWO32 ==> r == a + b
    ensures a + b >= TWO32 ==> r == a + b - TWO32
  {
    (a + b) % TWO32
  }

  /** An address: a data pointer or a function pointer; 0 is NULL. */
  type Addr = nat

  const NULL: Addr := 0

  /** The contents of a message buffer, kept abstract (the kernel copies
      nDataSize bytes, which the model treats as one value). */
  type Payload
}
