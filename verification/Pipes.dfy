/** The part of the kernel the pipe protocols rest on: which process holds which end of which pipe,
    copied by fork and dropped by close and exit, and what has been written but not read yet.
    A write of a few bytes is delivered whole, so a pipe holds a sequence of values. */
module Pipes {

  datatype End = Rd(pipe: nat) | Wr(pipe: nat)

  /** `fds` has one entry for each live process. */
  datatype Kernel<P(==)> = Kernel(fds: map<P, set<End>>, buf: map<nat, seq<int>>)

  datatype Outcome = Blocked | Eof | Got(value: int)

  function Fds<P(==)>(k: Kernel<P>, p: P): set<End> {
    if p in k.fds then k.fds[p] else {}
  }

  function Buf<P(==)>(k: Kernel<P>, pipe: nat): seq<int> {
    if pipe in k.buf then k.buf[pipe] else []
  }

  /** Some process can still write: only when nobody can does a read return end-of-file. */
  predicate HasWriter<P(==)>(k: Kernel<P>, pipe: nat) {
    exists p | p in k.fds :: Wr(pipe) in k.fds[p]
  }

  /** Some process can still read: writing without a reader raises SIGPIPE. */
  predicate HasReader<P(==)>(k: Kernel<P>, pipe: nat) {
    exists p | p in k.fds :: Rd(pipe) in k.fds[p]
  }

  function Open<P(==)>(k: Kernel<P>, p: P, pipe: nat): Kernel<P> {
    k.(fds := k.fds[p := Fds(k, p) + {Rd(pipe), Wr(pipe)}], buf := k.buf[pipe := []])
  }

  function Fork<P(==)>(k: Kernel<P>, parent: P, child: P): Kernel<P> {
    k.(fds := k.fds[child := Fds(k, parent)])
  }

  function Close<P(==)>(k: Kernel<P>, p: P, e: End): Kernel<P> {
    k.(fds := k.fds[p := Fds(k, p) - {e}])
  }

  function Exit<P(==)>(k: Kernel<P>, p: P): Kernel<P> {
    k.(fds := k.fds - {p})
  }

  function Read<P(==)>(k: Kernel<P>, pipe: nat): Outcome {
    if |Buf(k, pipe)| > 0 then Got(Buf(k, pipe)[0])
    else if HasWriter(k, pipe) then Blocked
    else Eof
  }

  /** The pipe after a read that returned a value. */
  function Take<P(==)>(k: Kernel<P>, pipe: nat): Kernel<P> {
    if |Buf(k, pipe)| > 0 then k.(buf := k.buf[pipe := Buf(k, pipe)[1..]]) else k
  }

  function Write<P(==)>(k: Kernel<P>, pipe: nat, v: int): Kernel<P> {
    k.(buf := k.buf[pipe := Buf(k, pipe) + [v]])
  }

  lemma CloseEnds<P>(k: Kernel<P>, p: P, e: End)
    ensures Fds(Close(k, p, e), p) == Fds(k, p) - {e}
    ensures forall q :: q != p ==> Fds(Close(k, p, e), q) == Fds(k, q)
  {
  }
}
