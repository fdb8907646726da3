/** Redirections around a builtin (applied in the shell itself, then undone) and in a child. */
module BuiltinRedirection {
  import opened Text
  import opened Descriptors

  /** `file` is what opening the target, or the here-document's temporary file, gives. */
  datatype Redir = Redir(fd: int, dupToStdout: bool, file: Option<OpenFile>)

  /** The open files behind descriptors 0 to 2. */
  datatype Std = Std(inp: OpenFile, out: OpenFile, err: OpenFile)

  predicate NeedsFile(r: Redir) {
    !r.dupToStdout && 0 <= r.fd <= 2
  }

  predicate AllOpen(rs: seq<Redir>) {
    forall j :: 0 <= j < |rs| ==> NeedsFile(rs[j]) ==> rs[j].file.Some?
  }

  /** The descriptor a redirection rebinds. */
  function Target(r: Redir): int {
    if r.dupToStdout then 2 else r.fd
  }

  function Slot(s: Std, k: int): OpenFile
    requires 0 <= k <= 2
  {
    if k == 0 then s.inp else if k == 1 then s.out else s.err
  }

  function WithSlot(s: Std, k: int, file: OpenFile): Std {
    if k == 0 then s.(inp := file) else if k == 1 then s.(out := file) else s.(err := file)
  }

  /** One redirection that does not fail. */
  function Rebind(r: Redir, s: Std): Std
    requires NeedsFile(r) ==> r.file.Some?
  {
    if r.dupToStdout then s.(err := s.out)
    else if r.fd == 0 then s.(inp := r.file.value)
    else if r.fd == 1 then s.(out := r.file.value)
    else if r.fd == 2 then s.(err := r.file.value)
    else s
  }

  /** The bindings after a list of redirections; a failed open abandons the rest of the list. */
  function Bound(rs: seq<Redir>, s: Std): Std {
    if rs == [] then s
    else if NeedsFile(rs[0]) && rs[0].file.None? then s
    else Bound(rs[1..], Rebind(rs[0], s))
  }

  lemma {:induction false} BoundAppend(a: seq<Redir>, b: seq<Redir>, s: Std)
    requires AllOpen(a)
    ensures Bound(a + b, s) == Bound(b, Bound(a, s))
  {
    if a == [] {
      assert a + b == b;
    } else {
      assert (a + b)[1..] == a[1..] + b;
      assert AllOpen(a[1..]);
      BoundAppend(a[1..], b, Rebind(a[0], s));
    }
  }

  lemma {:induction false} SlotKept(rs: seq<Redir>, s: Std, k: int)
    requires 0 <= k <= 2
    requires forall j :: 0 <= j < |rs| ==> Target(rs[j]) != k
    ensures Slot(Bound(rs, s), k) == Slot(s, k)
  {
    if rs != [] && (NeedsFile(rs[0]) ==> rs[0].file.Some?) {
      assert Target(rs[0]) != k;
      assert forall j :: 0 <= j < |rs[1..]| ==> rs[1..][j] == rs[j + 1];
      SlotKept(rs[1..], Rebind(rs[0], s), k);
    }
  }

  /**
   The last redirection of a descriptor decides it; `2>&1` takes the stdout of that moment, so
   what is written to its right does not move it.
   */
  lemma LastWins(a: seq<Redir>, r: Redir, b: seq<Redir>, s: Std)
    requires AllOpen(a) && (NeedsFile(r) ==> r.file.Some?)
    requires 0 <= Target(r) <= 2
    requires forall j :: 0 <= j < |b| ==> Target(b[j]) != Target(r)
    ensures Slot(Bound(a + [r] + b, s), Target(r))
            == if r.dupToStdout then Slot(Bound(a, s), 1) else r.file.value
  {
    assert a + [r] + b == a + ([r] + b);
    BoundAppend(a, [r] + b, s);
    var mid := Bound(a, s);
    assert ([r] + b)[1..] == b;
    SlotKept(b, Rebind(r, mid), Target(r));
  }

  /** A failed open undoes nothing and does nothing more: the list counts up to it. */
  lemma StopsAtFailure(a: seq<Redir>, r: Redir, b: seq<Redir>, s: Std)
    requires AllOpen(a) && NeedsFile(r) && r.file.None?
    ensures Bound(a + [r] + b, s) == Bound(a, s)
  {
    assert a + [r] + b == a + ([r] + b);
    BoundAppend(a, [r] + b, s);
  }

  /** Where a binding can come from: an opened file, what was there, or for stderr also stdout. */
  lemma {:induction false} BoundSources(rs: seq<Redir>, s: Std)
    requires forall j :: 0 <= j < |rs| && rs[j].file.Some? ==> rs[j].file.value.File?
    ensures var b := Bound(rs, s);
            && (b.inp.File? || b.inp == s.inp)
            && (b.out.File? || b.out == s.out)
            && (b.err.File? || b.err == s.err || b.err == s.out)
    decreases |rs|
  {
    if rs != [] && (NeedsFile(rs[0]) ==> rs[0].file.Some?) {
      BoundSources(rs[1..], Rebind(rs[0], s));
    }
  }

  function StdOf(t: Table): Std
    requires StandardOpen(t)
  {
    Std(t[0], t[1], t[2])
  }

  function WithStd(t: Table, s: Std): Table {
    t[0 := s.inp][1 := s.out][2 := s.err]
  }

  /** Saved copy `fd` of descriptor `k`, where -1 means "not saved yet". */
  predicate SavedCopy(now: Table, entry: Table, fd: int, k: nat) {
    k in entry && k in now &&
    if fd == -1 then now[k] == entry[k]
    else fd >= 0 && fd !in entry && fd in now && now[fd] == entry[k]
  }

  function SavedSet(saved: seq<int>): set<nat> {
    set j: nat | j < |saved| && saved[j] >= 0 :: saved[j]
  }

  /** `now` differs from `entry` in descriptors 0 to 2 and in the saved copies, nothing else. */
  ghost predicate Undoable(now: Table, entry: Table, saved: seq<int>) {
    && |saved| == 3
    && StandardOpen(entry)
    && (forall k: nat :: k < 3 ==> SavedCopy(now, entry, saved[k], k))
    && (forall j: nat, k: nat :: j < k < 3 && saved[j] != -1 ==> saved[j] != saved[k])
    && now.Keys == entry.Keys + SavedSet(saved)
    && (forall fd :: fd in entry && fd > 2 ==> now[fd] == entry[fd])
  }

  lemma SavedSetUpdate(saved: seq<int>, k: nat, fd: nat)
    requires |saved| == 3 && k < 3 && saved[k] == -1
    ensures SavedSet(saved[k := fd]) == SavedSet(saved) + {fd}
  {
    var next := saved[k := fd];
    assert next[k] == fd;
    forall x | x in SavedSet(saved) ensures x in SavedSet(next) {
      var j: nat :| j < 3 && saved[j] >= 0 && saved[j] == x;
      assert next[j] == x;
    }
    forall x | x in SavedSet(next) ensures x in SavedSet(saved) + {fd} {
      var j: nat :| j < 3 && next[j] >= 0 && next[j] == x;
      if j != k { assert saved[j] == x; }
    }
  }

  /** Saving the current binding of a descriptor not saved yet. */
  lemma SavingKeeps(now: Table, entry: Table, saved: seq<int>, k: nat, fd: nat)
    requires Undoable(now, entry, saved) && k < 3 && saved[k] == -1 && fd !in now
    ensures Undoable(now[fd := now[k]], entry, saved[k := fd])
  {
    SavedSetUpdate(saved, k, fd);
    var next := saved[k := fd];
    var t := now[fd := now[k]];
    forall j: nat | j < 3 ensures SavedCopy(t, entry, next[j], j) {
      assert SavedCopy(now, entry, saved[j], j);
    }
    forall i: nat, j: nat | i < j < 3 && next[i] != -1 ensures next[i] != next[j] {
      assert SavedCopy(now, entry, saved[i], i) && SavedCopy(now, entry, saved[j], j);
    }
  }

  /** Rebinding a descriptor that has been saved. */
  lemma RebindingKeeps(now: Table, entry: Table, saved: seq<int>, k: nat, file: OpenFile)
    requires Undoable(now, entry, saved) && k < 3 && saved[k] != -1
    ensures Undoable(now[k := file], entry, saved)
  {
    var t := now[k := file];
    forall j: nat | j < 3 ensures SavedCopy(t, entry, saved[j], j) {
      assert SavedCopy(now, entry, saved[j], j) && SavedCopy(now, entry, saved[k], k);
    }
  }

  lemma StartsUndoable(t: Table)
    requires StandardOpen(t)
    ensures Undoable(t, t, [-1, -1, -1])
  {
    assert SavedSet([-1, -1, -1]) == {};
  }

  /** Putting one saved copy back and closing it. */
  function PutBack(now: Table, fd: int, k: nat): Table {
    if fd >= 0 && fd in now then now[k := now[fd]] - {fd} else now
  }

  lemma PuttingBack(now: Table, entry: Table, saved: seq<int>, k: nat)
    requires Undoable(now, entry, saved) && k < 3
    ensures Undoable(PutBack(now, saved[k], k), entry, saved[k := -1])
  {
    var fd := saved[k];
    assert SavedCopy(now, entry, fd, k);
    var next := saved[k := -1];
    var t := PutBack(now, fd, k);
    if fd == -1 {
      assert next == saved;
    } else {
      SavedSetUpdate(next, k, fd);
      assert next[k := fd] == saved;
      forall j: nat | j < 3 ensures SavedCopy(t, entry, next[j], j) {
        assert SavedCopy(now, entry, saved[j], j);
      }
      assert fd !in SavedSet(next) by {
        forall j: nat | j < 3 && next[j] >= 0 ensures next[j] != fd {
          assert j < k || k < j;
        }
      }
      assert t.Keys == entry.Keys + SavedSet(next);
    }
  }

  lemma AllPutBack(now: Table, entry: Table)
    requires Undoable(now, entry, [-1, -1, -1])
    ensures now == entry
  {
    assert SavedSet([-1, -1, -1]) == {};
    forall k: nat | k < 3 ensures now[k] == entry[k] {
      assert SavedCopy(now, entry, [-1, -1, -1][k], k);
    }
  }

  class BuiltinRedir {
    var savedStdin: int
    var savedStdout: int
    var savedStderr: int
    var ok: bool

    constructor ()
      ensures savedStdin == savedStdout == savedStderr == -1 && ok
    {
      savedStdin, savedStdout, savedStderr, ok := -1, -1, -1, true;
    }

    function Saved(): seq<int>
      reads this
    {
      [savedStdin, savedStdout, savedStderr]
    }

    /** Opens `file` and puts it on descriptor `k`, keeping a copy of what was there the first time. */
    static method Replace(p: Process, k: nat, file: OpenFile, saved: int) returns (keep: int)
      requires k in p.fds
      modifies p
      ensures saved != -1 ==> keep == saved && p.fds == old(p.fds)[k := file]
      ensures saved == -1 ==> keep >= 0 && keep !in old(p.fds)
                              && p.fds == old(p.fds)[keep := old(p.fds)[k]][k := file]
    {
      keep := saved;
      var fd := p.Open(file);
      if keep == -1 {
        keep := p.Dup(k);
      }
      p.Dup2(fd, k);
      p.Close(fd);
    }

    static lemma Replaced(now: Table, entry: Table, saved: seq<int>, k: nat, keep: int, file: OpenFile)
      requires Undoable(now, entry, saved) && k < 3 && k in now
      requires saved[k] != -1 ==> keep == saved[k]
      requires saved[k] == -1 ==> keep >= 0 && keep !in now
      ensures Undoable((if saved[k] == -1 then now[keep := now[k]] else now)[k := file], entry, saved[k := keep])
    {
      if saved[k] == -1 {
        SavingKeeps(now, entry, saved, k, keep);
        RebindingKeeps(now[keep := now[k]], entry, saved[k := keep], k, file);
      } else {
        assert saved[k := keep] == saved;
        RebindingKeeps(now, entry, saved, k, file);
      }
    }

    /** `Replace`, in the terms of what has been saved. */
    static method ReplaceSaving(p: Process, k: nat, file: OpenFile, saved: int, ghost entry: Table, ghost all: seq<int>)
      returns (keep: int)
      requires StandardOpen(p.fds) && Undoable(p.fds, entry, all) && k < 3 && all[k] == saved
      modifies p
      ensures StandardOpen(p.fds) && Undoable(p.fds, entry, all[k := keep])
      ensures StdOf(p.fds) == WithSlot(StdOf(old(p.fds)), k, file)
    {
      ghost var now := p.fds;
      hide Undoable, StdOf, WithSlot;
      keep := Replace(p, k, file, saved);
      Replaced(now, entry, all, k, keep, file);
      SlotFilled(now, k, keep, file);
    }

    /** A copy kept elsewhere and a new file on `k`, seen on descriptors 0-2. */
    static lemma SlotFilled(now: Table, k: nat, keep: int, file: OpenFile)
      requires StandardOpen(now) && k < 3
      ensures var t := now[k := file]; StandardOpen(t) && StdOf(t) == WithSlot(StdOf(now), k, file)
      ensures keep >= 0 && keep !in now ==>
                var t := now[keep := now[k]][k := file];
                StandardOpen(t) && StdOf(t) == WithSlot(StdOf(now), k, file)
    {
    }

    /** `2>&1`. */
    static method JoinStderr(p: Process, saved: int, ghost entry: Table, ghost all: seq<int>) returns (keep: int)
      requires StandardOpen(p.fds) && Undoable(p.fds, entry, all) && all[2] == saved
      modifies p
      ensures StandardOpen(p.fds) && Undoable(p.fds, entry, all[2 := keep])
      ensures StdOf(p.fds) == WithSlot(StdOf(old(p.fds)), 2, old(p.fds)[1])
    {
      ghost var now := p.fds;
      hide Undoable;
      keep := saved;
      if keep == -1 {
        keep := p.Dup(2);
      }
      p.Dup2(1, 2);
      Replaced(now, entry, all, 2, keep, now[1]);
    }

    /** One redirection, whose file, if it needs one, is open. */
    method ApplyOne(p: Process, r: Redir, ghost entry: Table)
      requires NeedsFile(r) ==> r.file.Some?
      requires StandardOpen(p.fds) && Undoable(p.fds, entry, Saved())
      modifies this, p
      ensures StandardOpen(p.fds) && Undoable(p.fds, entry, Saved())
      ensures StdOf(p.fds) == Rebind(r, StdOf(old(p.fds)))
      ensures ok == old(ok)
    {
      hide Undoable;
      ghost var saved := Saved();
      if r.dupToStdout {
        savedStderr := JoinStderr(p, savedStderr, entry, saved);
        assert Saved() == saved[2 := savedStderr];
      } else if r.fd == 0 {
        savedStdin := ReplaceSaving(p, 0, r.file.value, savedStdin, entry, saved);
        assert Saved() == saved[0 := savedStdin];
      } else if r.fd == 1 {
        savedStdout := ReplaceSaving(p, 1, r.file.value, savedStdout, entry, saved);
        assert Saved() == saved[1 := savedStdout];
      } else if r.fd == 2 {
        savedStderr := ReplaceSaving(p, 2, r.file.value, savedStderr, entry, saved);
        assert Saved() == saved[2 := savedStderr];
      }
    }

    /** Descriptors 0 to 2 end as the list says, up to the first open that fails. */
    method Apply(p: Process, redirs: seq<Redir>)
      requires StandardOpen(p.fds) && ok && Saved() == [-1, -1, -1]
      modifies this, p
      ensures StandardOpen(p.fds) && StdOf(p.fds) == Bound(redirs, StdOf(old(p.fds)))
      ensures ok == AllOpen(redirs)
      ensures Undoable(p.fds, old(p.fds), Saved())
    {
      ghost var entry := p.fds;
      StartsUndoable(entry);
      hide Undoable, Rebind;
      var j := 0;
      assert redirs[0..] == redirs;
      while j < |redirs|
        invariant 0 <= j <= |redirs|
        invariant StandardOpen(p.fds) && ok && AllOpen(redirs[..j])
        invariant Undoable(p.fds, entry, Saved())
        invariant Bound(redirs, StdOf(entry)) == Bound(redirs[j..], StdOf(p.fds))
      {
        var r := redirs[j];
        assert redirs[j..][0] == r && redirs[j..][1..] == redirs[j + 1..];
        if !r.dupToStdout && 0 <= r.fd <= 2 && r.file.None? {
          ok := false;
          return;
        }
        ApplyOne(p, r, entry);
        assert redirs[..j + 1] == redirs[..j] + [r];
        j := j + 1;
      }
      assert redirs[j..] == [] && redirs[..j] == redirs;
    }

    static method PutOneBack(p: Process, fd: int, k: nat, ghost entry: Table, ghost saved: seq<int>)
      requires Undoable(p.fds, entry, saved) && k < 3 && saved[k] == fd
      modifies p
      ensures Undoable(p.fds, entry, saved[k := -1])
    {
      PuttingBack(p.fds, entry, saved, k);
      assert SavedCopy(p.fds, entry, fd, k);
      hide Undoable;
      if fd != -1 {
        p.Dup2(fd, k);
        p.Close(fd);
      }
    }

    /** However far `Apply` got, every descriptor is back and no other is open. */
    method Restore(p: Process, ghost entry: Table)
      requires Undoable(p.fds, entry, Saved())
      modifies p
      ensures p.fds == entry
    {
      ghost var saved := Saved();
      hide Undoable;
      PutOneBack(p, savedStdin, 0, entry, saved);
      PutOneBack(p, savedStdout, 1, entry, saved[0 := -1]);
      PutOneBack(p, savedStderr, 2, entry, saved[0 := -1][1 := -1]);
      assert saved[0 := -1][1 := -1][2 := -1] == [-1, -1, -1];
      AllPutBack(p.fds, entry);
    }
  }

  /** A builtin's redirections leave no trace in the shell, whichever of them failed. */
  method AroundBuiltin(p: Process, redirs: seq<Redir>) returns (ok: bool, during: Std)
    requires StandardOpen(p.fds)
    modifies p
    ensures p.fds == old(p.fds)
    ensures ok == AllOpen(redirs)
    ensures during == Bound(redirs, StdOf(old(p.fds)))
  {
    ghost var entry := p.fds;
    var redir := new BuiltinRedir();
    redir.Apply(p, redirs);
    ok := redir.ok;
    during := Std(p.fds[0], p.fds[1], p.fds[2]);
    redir.Restore(p, entry);
  }

  /** The child's side: same bindings when every open succeeds, otherwise the child exits with status 1. */
  method SetupChildIo(p: Process, redirections: seq<Redir>) returns (exited: bool)
    requires StandardOpen(p.fds)
    modifies p
    ensures exited == !AllOpen(redirections)
    ensures p.fds == WithStd(old(p.fds), Bound(redirections, StdOf(old(p.fds))))
  {
    ghost var entry := p.fds;
    exited := false;
    assert redirections[0..] == redirections;
    assert WithStd(entry, StdOf(entry)) == entry;
    var j := 0;
    while j < |redirections|
      invariant 0 <= j <= |redirections|
      invariant AllOpen(redirections[..j])
      invariant StandardOpen(p.fds) && p.fds == WithStd(entry, StdOf(p.fds))
      invariant Bound(redirections, StdOf(entry)) == Bound(redirections[j..], StdOf(p.fds))
    {
      var r := redirections[j];
      assert redirections[j..][0] == r && redirections[j..][1..] == redirections[j + 1..];
      if r.dupToStdout {
        p.Dup2(1, 2);
      } else if 0 <= r.fd <= 2 {
        if r.file.None? {
          return true;
        }
        ghost var now := p.fds;
        var fd := p.Open(r.file.value);
        p.Dup2(fd, r.fd);
        p.Close(fd);
        assert p.fds == now[r.fd := r.file.value];
      }
      assert redirections[..j + 1] == redirections[..j] + [r];
      j := j + 1;
    }
    assert redirections[j..] == [] && redirections[..j] == redirections;
  }
}
