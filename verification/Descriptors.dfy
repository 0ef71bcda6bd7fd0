/** The descriptor table of a process, and the stack of backups that undoes the
    redirections of a command run in the shell itself. */
module Descriptors {
  import opened Prelude

  /** Open descriptors, and the open file each one refers to. */
  type Table = map<nat, nat>

  ghost function UsedFrom(t: Table, n: nat): set<nat> {
    set k | k in t.Keys && n <= k
  }

  function LowestFrom(t: Table, n: nat): (r: nat)
    ensures n <= r && r !in t && forall k :: n <= k < r ==> k in t
    decreases UsedFrom(t, n)
  {
    if n in t then
      assert n in UsedFrom(t, n) && n !in UsedFrom(t, n + 1);
      assert UsedFrom(t, n + 1) <= UsedFrom(t, n);
      LowestFrom(t, n + 1)
    else n
  }

  /** The number dup and open give out. */
  function LowestFree(t: Table): (r: nat)
    ensures r !in t && forall k :: 0 <= k < r ==> k in t
  {
    LowestFrom(t, 0)
  }

  function Dup(t: Table, fd: nat): (Option<nat>, Table) {
    if fd in t then (Some(LowestFree(t)), t[LowestFree(t) := t[fd]]) else (None, t)
  }

  function Dup2(t: Table, source: nat, target: nat): (bool, Table) {
    if source in t then (true, t[target := t[source]]) else (false, t)
  }

  function Close(t: Table, fd: nat): Table {
    t - {fd}
  }

  function Open(t: Table, file: nat): (nat, Table) {
    (LowestFree(t), t[LowestFree(t) := file])
  }

  /** Put an open file on a descriptor, or none. */
  function Put(t: Table, fd: nat, file: Option<nat>): Table {
    if file.Some? then t[fd := file.value] else t - {fd}
  }

  function Get(t: Table, fd: nat): Option<nat> {
    if fd in t then Some(t[fd]) else None
  }

  /** A file opened for a redirection: opened, duplicated onto the target, and
      the first number closed. When open gives out the target itself, that last
      step closes the target again. */
  function OpenOnto(t: Table, file: nat, target: nat): (r: Table)
    ensures r == if target == LowestFree(t) then t else Put(t, target, Some(file))
  {
    var (fd, t1) := Open(t, file);
    Close(Dup2(t1, fd, target).1, fd)
  }

  // --------------------------------------------------------------- backups

  datatype Backup = Backup(target: nat, copy: Option<nat>)

  predicate IsSaved(saved: seq<Backup>, fd: nat) {
    exists i :: 0 <= i < |saved| && saved[i].target == fd
  }

  function Save(t: Table, saved: seq<Backup>, fd: nat): (Table, seq<Backup>) {
    if IsSaved(saved, fd) then (t, saved)
    else var (copy, t1) := Dup(t, fd); (t1, saved + [Backup(fd, copy)])
  }

  function RestoreOne(t: Table, b: Backup): Table {
    match b.copy
    case None => Close(t, b.target)
    case Some(copy) => Close(Dup2(t, copy, b.target).1, copy)
  }

  function Undo(t: Table, saved: seq<Backup>): Table
    decreases |saved|
  {
    if saved == [] then t else Undo(RestoreOne(t, saved[|saved| - 1]), saved[..|saved| - 1])
  }

  /** Every backup is still there when its turn comes, and no target is saved twice. */
  ghost predicate Sound(t: Table, saved: seq<Backup>)
    decreases |saved|
  {
    saved == [] ||
      var last, front := saved[|saved| - 1], saved[..|saved| - 1];
      && (last.copy.Some? ==> last.copy.value in t && last.copy.value != last.target)
      && !IsSaved(front, last.target)
      && Sound(RestoreOne(t, last), front)
  }

  /** No backup made after the target's own sits on the target's number. */
  predicate Protected(saved: seq<Backup>, fd: nat)
    decreases |saved|
  {
    saved != [] &&
      var last := saved[|saved| - 1];
      last.target == fd || (last.copy != Some(fd) && Protected(saved[..|saved| - 1], fd))
  }

  /** Saving a descriptor is invisible once undone. */
  lemma SaveIsUndone(t: Table, saved: seq<Backup>, fd: nat)
    requires Sound(t, saved)
    ensures var (t1, saved1) := Save(t, saved, fd);
            && Sound(t1, saved1) && Undo(t1, saved1) == Undo(t, saved) && IsSaved(saved1, fd)
            && (!IsSaved(saved, fd) ==> Protected(saved1, fd))
  {
    var (t1, saved1) := Save(t, saved, fd);
    if !IsSaved(saved, fd) {
      var last := saved1[|saved1| - 1];
      assert last.target == fd && saved1[..|saved1| - 1] == saved;
      assert RestoreOne(t1, last) == t;
    }
  }

  lemma SaveUndoes(t: Table, saved: seq<Backup>, fd: nat)
    ensures var (t1, saved1) := Save(t, saved, fd); Undo(t1, saved1) == Undo(t, saved)
  {
    var (t1, saved1) := Save(t, saved, fd);
    if !IsSaved(saved, fd) {
      assert saved1[..|saved1| - 1] == saved;
      assert RestoreOne(t1, saved1[|saved1| - 1]) == t;
    }
  }

  /** What a redirection does to a protected target is undone. */
  lemma {:induction false} ChangeIsUndone(t: Table, saved: seq<Backup>, fd: nat, file: Option<nat>)
    requires Sound(t, saved) && Protected(saved, fd)
    ensures Sound(Put(t, fd, file), saved) && Undo(Put(t, fd, file), saved) == Undo(t, saved)
    decreases |saved|
  {
    var last := saved[|saved| - 1];
    if last.target == fd {
      assert RestoreOne(Put(t, fd, file), last) == RestoreOne(t, last);
    } else {
      assert RestoreOne(Put(t, fd, file), last) == Put(RestoreOne(t, last), fd, file);
      ChangeIsUndone(RestoreOne(t, last), saved[..|saved| - 1], fd, file);
    }
  }

  lemma {:induction false} DifferenceStays(t: Table, u: Table, saved: seq<Backup>, fd: nat)
    requires Sound(t, saved) && !IsSaved(saved, fd)
    requires fd in t && fd in u && t[fd] != u[fd] && u == t[fd := u[fd]]
    ensures Undo(t, saved) != Undo(u, saved)
    decreases |saved|
  {
    if saved != [] {
      var last, front := saved[|saved| - 1], saved[..|saved| - 1];
      assert last.target != fd;
      var t1, u1 := RestoreOne(t, last), RestoreOne(u, last);
      if last.copy == Some(fd) {
        assert u1 == t1[last.target := u1[last.target]];
        DifferenceStays(t1, u1, front, last.target);
      } else {
        assert u1 == t1[fd := u1[fd]];
        DifferenceStays(t1, u1, front, fd);
      }
    }
  }

  /** A change of fd to x makes no difference to the undoing of these backups: x
      is there already, or a backup writes over it, or it strikes a backup (which
      then puts x on its target, or, closed, nothing) and that makes no difference
      to the backups before. */
  predicate Harmless(t: Table, saved: seq<Backup>, fd: nat, x: Option<nat>)
    decreases |saved|
  {
    Get(t, fd) == x ||
    (saved != [] &&
     var last, front := saved[|saved| - 1], saved[..|saved| - 1];
     if last.copy == Some(fd) then
       last.target == fd ||
       Harmless(RestoreOne(t, last), front, last.target, if x.Some? then x else Get(t, last.target))
     else if last.target == fd && (last.copy.Some? ==> last.copy.value in t) then true
     else Harmless(RestoreOne(t, last), front, fd, x))
  }

  lemma RestoredStruckCopy(t: Table, b: Backup, x: Option<nat>)
    requires b.copy.Some? && b.copy.value != b.target
    ensures RestoreOne(Put(t, b.copy.value, x), b)
         == Put(RestoreOne(t, b), b.target, if x.Some? then x else Get(t, b.target))
  {
    var c := b.copy.value;
    var u := Put(t, c, x);
    var left, right := RestoreOne(u, b), Put(RestoreOne(t, b), b.target, if x.Some? then x else Get(t, b.target));
    assert forall k :: k != c && k != b.target ==> Get(left, k) == Get(t, k) == Get(right, k);
    assert Get(left, c) == None == Get(right, c);
    assert Get(left, b.target) == Get(right, b.target);
    SameTable(left, right);
  }

  lemma RestoredOther(t: Table, b: Backup, fd: nat, x: Option<nat>)
    requires b.copy != Some(fd)
    ensures RestoreOne(Put(t, fd, x), b)
         == if b.target == fd && (b.copy.Some? ==> b.copy.value in t) then RestoreOne(t, b) else Put(RestoreOne(t, b), fd, x)
    ensures b.target == fd || Get(RestoreOne(t, b), fd) == Get(t, fd)
    ensures b.target == fd && b.copy.Some? && b.copy.value !in t ==> Get(RestoreOne(t, b), fd) == Get(t, fd)
  {
    var u := Put(t, fd, x);
    var left := RestoreOne(u, b);
    var overwritten := b.target == fd && (b.copy.Some? ==> b.copy.value in t);
    var right := if overwritten then RestoreOne(t, b) else Put(RestoreOne(t, b), fd, x);
    assert forall k :: k != fd && k != b.target ==> Get(left, k) == Get(right, k);
    assert Get(left, fd) == Get(right, fd);
    assert Get(left, b.target) == Get(right, b.target);
    SameTable(left, right);
  }

  lemma SameTable(t: Table, u: Table)
    requires forall k :: Get(t, k) == Get(u, k)
    ensures t == u
  {
    forall k: nat ensures k in t <==> k in u {
      assert Get(t, k) == Get(u, k);
    }
    forall k: nat | k in t ensures t[k] == u[k] {
      assert Get(t, k) == Get(u, k);
    }
  }

  /** Whatever the backups are, changing a descriptor (pointing it at a file, or
      closing it) is undone exactly when the change is harmless. */
  lemma {:induction false} ChangeIsUndoneIff(t: Table, saved: seq<Backup>, fd: nat, x: Option<nat>)
    ensures Undo(Put(t, fd, x), saved) == Undo(t, saved) <==> Harmless(t, saved, fd, x)
    decreases |saved|
  {
    hide RestoreOne;
    var u := Put(t, fd, x);
    if Get(t, fd) == x {
      SameTable(t, u);
    } else if saved == [] {
      assert Get(u, fd) == x;
    } else {
      var last, front := saved[|saved| - 1], saved[..|saved| - 1];
      if last.copy == Some(fd) {
        if last.target == fd {
          BackupOnItself(t, last, x);
        } else {
          RestoredStruckCopy(t, last, x);
          ChangeIsUndoneIff(RestoreOne(t, last), front, last.target, if x.Some? then x else Get(t, last.target));
        }
      } else {
        RestoredOther(t, last, fd, x);
        ChangeIsUndoneIff(RestoreOne(t, last), front, fd, x);
      }
    }
  }

  lemma BackupOnItself(t: Table, b: Backup, x: Option<nat>)
    requires b.copy == Some(b.target)
    ensures RestoreOne(Put(t, b.target, x), b) == RestoreOne(t, b)
  {
  }

  /** Pointing a target that is saved already at a file: undone exactly when no
      later backup sits on its number, or the number held that file already. */
  lemma {:induction false} RepeatIsUndoneIff(t: Table, saved: seq<Backup>, fd: nat, file: nat)
    requires Sound(t, saved) && IsSaved(saved, fd)
    ensures Undo(Put(t, fd, Some(file)), saved) == Undo(t, saved) <==> Protected(saved, fd) || Get(t, fd) == Some(file)
    decreases |saved|
  {
    var last, front := saved[|saved| - 1], saved[..|saved| - 1];
    var u := Put(t, fd, Some(file));
    if Protected(saved, fd) {
      ChangeIsUndone(t, saved, fd, Some(file));
    } else if Get(t, fd) == Some(file) {
      assert u == t;
    } else if last.copy == Some(fd) {
      var t1, u1 := RestoreOne(t, last), RestoreOne(u, last);
      assert u1 == t1[last.target := u1[last.target]];
      DifferenceStays(t1, u1, front, last.target);
    } else {
      assert RestoreOne(u, last) == Put(RestoreOne(t, last), fd, Some(file));
      assert Get(RestoreOne(t, last), fd) == Get(t, fd);
      assert IsSaved(front, fd) by {
        var i :| 0 <= i < |saved| && saved[i].target == fd;
        assert front[i].target == fd;
      }
      RepeatIsUndoneIff(RestoreOne(t, last), front, fd, file);
    }
  }

  /** Closing it: undone exactly when no later backup sits on its number, or it
      was closed already, or losing the backup on it is harmless to that backup's
      target, which then keeps the file it was redirected to. */
  lemma {:induction false} RepeatedCloseIsUndoneIff(t: Table, saved: seq<Backup>, fd: nat)
    requires Sound(t, saved) && IsSaved(saved, fd)
    ensures Undo(Close(t, fd), saved) == Undo(t, saved)
       <==> Protected(saved, fd) || fd !in t || LosesNothing(t, saved, fd)
    decreases |saved|
  {
    var last, front := saved[|saved| - 1], saved[..|saved| - 1];
    if Protected(saved, fd) {
      ChangeIsUndone(t, saved, fd, None);
    } else if fd !in t {
      assert Close(t, fd) == t;
    } else if last.copy == Some(fd) {
      ChangeIsUndoneIff(t, saved, fd, None);
    } else {
      assert RestoreOne(Close(t, fd), last) == Close(RestoreOne(t, last), fd);
      assert IsSaved(front, fd) by {
        var i :| 0 <= i < |saved| && saved[i].target == fd;
        assert front[i].target == fd;
      }
      RepeatedCloseIsUndoneIff(RestoreOne(t, last), front, fd);
    }
  }

  /** The backup that sits on fd can be lost. */
  predicate LosesNothing(t: Table, saved: seq<Backup>, fd: nat)
    decreases |saved|
  {
    saved != [] &&
    var last, front := saved[|saved| - 1], saved[..|saved| - 1];
    if last.copy == Some(fd) then Harmless(RestoreOne(t, last), front, last.target, Get(t, last.target))
    else LosesNothing(RestoreOne(t, last), front, fd)
  }

  // --------------------------------------------------------------- pipes

  /** The numbers of n pipes, two each. */
  function OpenPipes(t: Table, n: nat, file: nat): (Table, seq<nat>)
    decreases n
  {
    if n == 0 then (t, [])
    else
      var (a, t1) := Open(t, file);
      var (b, t2) := Open(t1, file + 1);
      var (t3, rest) := OpenPipes(t2, n - 1, file + 2);
      (t3, [a, b] + rest)
  }

  function CloseAll(t: Table, fds: seq<nat>): Table {
    if fds == [] then t else CloseAll(Close(t, fds[0]), fds[1..])
  }

  lemma {:induction false} PipesOpened(t: Table, n: nat, file: nat)
    ensures var (t1, fds) := OpenPipes(t, n, file);
            && (forall k :: k in t1 <==> k in t || k in fds)
            && (forall k :: k in fds ==> k !in t)
            && (forall k :: k in t ==> t1[k] == t[k])
    decreases n
  {
    if n > 0 {
      var (a, t1) := Open(t, file);
      var (b, t2) := Open(t1, file + 1);
      PipesOpened(t2, n - 1, file + 2);
    }
  }

  lemma {:induction false} ClosedAll(t: Table, fds: seq<nat>)
    ensures CloseAll(t, fds) == map k | k in t && k !in fds :: t[k]
    decreases |fds|
  {
    if fds != [] {
      ClosedAll(Close(t, fds[0]), fds[1..]);
    }
  }

  /** A pipeline's descriptors are all gone again once it has been started. */
  lemma PipesAreClosed(t: Table, n: nat, file: nat)
    ensures var (t1, fds) := OpenPipes(t, n, file); CloseAll(t1, fds) == t
  {
    var (t1, fds) := OpenPipes(t, n, file);
    PipesOpened(t, n, file);
    ClosedAll(t1, fds);
  }

  /** The numbers given to n pipes are new and different, each with a file of its own. */
  lemma {:induction false} PipesAreNew(t: Table, n: nat, file: nat)
    ensures var (t1, fds) := OpenPipes(t, n, file);
            && |fds| == 2 * n
            && (forall k :: 0 <= k < |fds| ==> fds[k] !in t && fds[k] in t1 && t1[fds[k]] == file + k)
            && (forall k :: k in t1 <==> k in t || k in fds)
            && (forall k :: k in t ==> t1[k] == t[k])
    decreases n
  {
    hide Open;
    PipesOpened(t, n, file);
    if n > 0 {
      var (a, t1) := Open(t, file);
      var (b, t2) := Open(t1, file + 1);
      OpensNew(t, file);
      OpensNew(t1, file + 1);
      PipesAreNew(t2, n - 1, file + 2);
      var rest := OpenPipes(t2, n - 1, file + 2).1;
      forall k | 0 <= k < 2 * n ensures ([a, b] + rest)[k] !in t {
        assert k >= 2 ==> ([a, b] + rest)[k] == rest[k - 2];
      }
    }
  }

  lemma OpensNew(t: Table, file: nat)
    ensures var (n, t1) := Open(t, file); n !in t && t1 == t[n := file]
  {
  }

  // ------------------------------------------------------------- as classes

  class Kernel {
    var fds: Table

    constructor (fds: Table)
      ensures this.fds == fds
    {
      this.fds := fds;
    }

    method DupFd(fd: nat) returns (copy: Option<nat>)
      modifies this
      ensures (copy, fds) == Dup(old(fds), fd)
    {
      if fd in fds {
        var n := LowestFree(fds);
        fds := fds[n := fds[fd]];
        return Some(n);
      }
      return None;
    }

    method DupOnto(source: nat, target: nat) returns (ok: bool)
      modifies this
      ensures (ok, fds) == Dup2(old(fds), source, target)
    {
      ok := source in fds;
      if ok {
        fds := fds[target := fds[source]];
      }
    }

    method CloseFd(fd: nat)
      modifies this
      ensures fds == Close(old(fds), fd)
    {
      fds := fds - {fd};
    }

    method OpenFile(file: nat) returns (fd: nat)
      modifies this
      ensures (fd, fds) == Open(old(fds), file)
    {
      fd := LowestFree(fds);
      fds := fds[fd := file];
    }
  }

  class FdRestorer {
    const kernel: Kernel
    var saved: seq<Backup>
    var savedSet: set<nat>

    ghost predicate Valid()
      reads this
    {
      forall fd :: fd in savedSet <==> IsSaved(saved, fd)
    }

    constructor (kernel: Kernel)
      ensures Valid() && this.kernel == kernel && saved == []
    {
      this.kernel := kernel;
      saved, savedSet := [], {};
    }

    method SaveFd(fd: nat)
      requires Valid()
      modifies this, kernel
      ensures Valid() && (kernel.fds, saved) == Save(old(kernel.fds), old(saved), fd)
    {
      if fd in savedSet {
        return;
      }
      savedSet := savedSet + {fd};
      var copy := kernel.DupFd(fd);
      saved := saved + [Backup(fd, copy)];
      forall k ensures k in savedSet <==> IsSaved(saved, k) {
        SavedSnoc(old(saved), Backup(fd, copy), k);
      }
    }

    /** The destructor: backups go back in reverse order. */
    method Restore()
      modifies kernel
      ensures kernel.fds == Undo(old(kernel.fds), saved)
    {
      var n := |saved|;
      assert saved[..n] == saved;
      while n > 0
        invariant 0 <= n <= |saved|
        invariant Undo(kernel.fds, saved[..n]) == Undo(old(kernel.fds), saved)
      {
        n := n - 1;
        assert saved[..n + 1][..n] == saved[..n];
        var b := saved[n];
        if b.copy.None? {
          kernel.CloseFd(b.target);
        } else {
          var _ := kernel.DupOnto(b.copy.value, b.target);
          kernel.CloseFd(b.copy.value);
        }
      }
    }
  }

  lemma SavedSnoc(saved: seq<Backup>, b: Backup, fd: nat)
    ensures IsSaved(saved + [b], fd) <==> IsSaved(saved, fd) || fd == b.target
  {
    var all := saved + [b];
    if IsSaved(saved, fd) {
      var i :| 0 <= i < |saved| && saved[i].target == fd;
      assert all[i].target == fd;
    }
    if fd == b.target {
      assert all[|saved|].target == fd;
    }
  }
}
