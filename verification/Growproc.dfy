/** sys_sbrk and growproc: what a request for n bytes does to the size of a process. The request
    is an int, the size an unsigned 32-bit number, and both are converted without a check. */
module Growproc {
  import opened Options
  import opened Words

  const KERNBASE := 0x8000_0000

  /** In bytes. sz: the size the kernel has on record; top: where the memory that is still
      mapped ends. They differ only after a request that took all memory away. */
  datatype Process = Process(sz: nat, top: nat)

  /** The process afterwards and the address returned, None for -1. */
  datatype Answer = Answer(process: Process, addr: Option<nat>)

  ghost predicate Running(p: Process) { 0 < p.sz < KERNBASE && p.top == p.sz }

  /** memory tells whether allocuvm finds the pages it needs. */
  function Sbrk(p: Process, n: int, memory: bool): (r: Answer)
    requires p.sz < KERNBASE && -KERNBASE <= n < KERNBASE
  {
    var newsz := (p.sz + n) % WORD;
    if n > 0 then
      if newsz >= KERNBASE then Answer(p, None)
      else if newsz < p.sz then Answer(p, Some(p.sz))
      else if memory then Answer(Process(newsz, newsz), Some(p.sz))
      else Answer(p, None)
    else if n < 0 then
      if newsz >= p.sz then Answer(p, if p.sz == 0 then None else Some(p.sz))
      else if newsz == 0 then Answer(p.(top := 0), None)
      else Answer(Process(newsz, newsz), Some(p.sz))
    else Answer(p, Some(p.sz))
  }

  /** A caller that asks for `bytes`, an unsigned number, and gets an address has that many bytes
      from there on exactly when the number is below 2 GB. Above, it is taken for a negative one:
      memory is given back or left as it is, and the call still succeeds. */
  lemma Granted(p: Process, bytes: nat, memory: bool)
    requires Running(p) && 0 < bytes <= WORD
    ensures var r := Sbrk(p, AsInt(bytes % WORD), memory);
            && (bytes < KERNBASE ==> Running(r.process) && r.process.sz == p.sz + if r.addr.Some? then bytes else 0)
            && (bytes >= KERNBASE ==> r.process.top <= p.sz && (r.addr.None? ==> r.process.top == 0))
            && (r.addr.Some? ==> r.addr.value == p.sz && (p.sz + bytes <= r.process.top <==> bytes < KERNBASE))
  {
    var n := AsInt(bytes % WORD);
    if bytes < KERNBASE {
      assert (p.sz + n) % WORD == p.sz + bytes;
    } else if n < 0 && p.sz + n < 0 {
      assert (p.sz + n) % WORD == p.sz + n + WORD;
    } else {
      assert (p.sz + n) % WORD == p.sz + n;
    }
  }

  /** Memory asked for and given back leaves the process as it was. */
  lemma ThereAndBack(p: Process, n: int, memory: bool, again: bool)
    requires Running(p) && 0 < n < KERNBASE && Sbrk(p, n, memory).addr.Some?
    ensures var r := Sbrk(p, n, memory).process;
            r.sz == p.sz + n && r.sz < KERNBASE && Sbrk(r, -n, again) == Answer(p, Some(p.sz + n))
  {
    assert (p.sz + n) % WORD == p.sz + n;
    assert (p.sz + n - n) % WORD == p.sz;
  }

  /** Refused exactly when the memory is not there, the process would reach the kernel, or a
      request that counts as negative takes away everything. */
  lemma Refused(p: Process, bytes: nat, memory: bool)
    requires Running(p) && 0 < bytes <= WORD
    ensures Sbrk(p, AsInt(bytes % WORD), memory).addr.None? <==>
            if bytes < KERNBASE then !memory || p.sz + bytes >= KERNBASE else p.sz + bytes == WORD
  {
    var n := AsInt(bytes % WORD);
    if bytes < KERNBASE {
      assert (p.sz + n) % WORD == p.sz + bytes;
    } else if n < 0 && p.sz + n < 0 {
      assert (p.sz + n) % WORD == p.sz + n + WORD;
    } else {
      assert (p.sz + n) % WORD == p.sz + n;
    }
  }
}
