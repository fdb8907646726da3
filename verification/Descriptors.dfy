/** Descriptor tables of processes, and the system calls that change them. */
module Descriptors {

  datatype OpenFile = File(id: nat) | PipeRead(pipe: nat) | PipeWrite(pipe: nat)

  type Table = map<nat, OpenFile>

  /** stdin, stdout and stderr are open. */
  predicate StandardOpen(t: Table) {
    0 in t && 1 in t && 2 in t
  }

  lemma {:induction false} UpperBound(s: set<nat>) returns (n: nat)
    ensures forall x :: x in s ==> x < n
  {
    n := 0;
    if s != {} {
      var x :| x in s;
      var m := UpperBound(s - {x});
      n := if x < m then m else x + 1;
      assert forall y :: y in s ==> y == x || y in s - {x};
    }
  }

  lemma SomeFree(t: Table)
    ensures exists fd: nat :: fd !in t
  {
    var n := UpperBound(t.Keys);
    assert n !in t;
  }

  class Process {
    var fds: Table

    constructor (fds: Table)
      ensures this.fds == fds
    {
      this.fds := fds;
    }

    /** Any unused descriptor may be returned; POSIX returns the lowest. */
    method Open(file: OpenFile) returns (fd: nat)
      modifies this
      ensures fd !in old(fds) && fds == old(fds)[fd := file]
    {
      SomeFree(fds);
      fd :| fd !in fds;
      fds := fds[fd := file];
    }

    method Dup(from: nat) returns (fd: nat)
      requires from in fds
      modifies this
      ensures fd !in old(fds) && fds == old(fds)[fd := old(fds)[from]]
    {
      fd := Open(fds[from]);
    }

    method Dup2(from: nat, to: nat)
      requires from in fds
      modifies this
      ensures fds == old(fds)[to := old(fds)[from]]
    {
      fds := fds[to := fds[from]];
    }

    method Close(fd: nat)
      modifies this
      ensures fds == old(fds) - {fd}
    {
      fds := fds - {fd};
    }

    method Pipe(id: nat) returns (r: nat, w: nat)
      modifies this
      ensures r != w && r !in old(fds) && w !in old(fds)
      ensures fds == old(fds)[r := PipeRead(id)][w := PipeWrite(id)]
    {
      r := Open(PipeRead(id));
      w := Open(PipeWrite(id));
    }

    /** The child starts with a copy of the table. */
    method Fork() returns (child: Process)
      ensures fresh(child) && child.fds == fds
    {
      child := new Process(fds);
    }
  }
}
