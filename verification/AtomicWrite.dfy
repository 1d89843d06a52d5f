/** Atomic replacement of a file (app/reporting/atomic_write.py, app/settings/repository.py): a
    temporary file is filled and moved into place, and any step may fail. */
module AtomicWrite {
  import opened Basics

  type Disk = map<string, string>

  function At(disk: Disk, path: string): Option<string>
  {
    if path in disk then Some(disk[path]) else None
  }

  datatype FsCall = Opening | Making | Writing | Syncing | Closing | Moving | Removing

  /** A directory's files. Every change is recorded, so that a crash after any step finds one of the
      recorded states. Which calls fail is fixed but unknown. */
  class FileSystem {
    const fails: nat -> bool
    var calls: nat
    var files: Disk
    ghost var history: seq<Disk>
    ghost var last: FsCall
    /** The call before that one. */
    ghost var previous: FsCall

    constructor (fails: nat -> bool, files: Disk)
      ensures Valid() && this.fails == fails && this.files == files && history == [files] && calls == 0
    {
      this.fails, this.files, calls, history, last, previous := fails, files, 0, [files], Making, Making;
    }

    ghost predicate Valid()
      reads this
    {
      history != [] && history[|history| - 1] == files
    }

    /** The last call was to close or remove a temporary file, and it failed. */
    ghost predicate CleanupFailed()
      reads this
    {
      calls > 0 && fails(calls - 1) && last in {Closing, Removing}
    }

    /** Whether the next call fails. */
    method Fails(call: FsCall) returns (failed: bool)
      modifies this`calls, this`last, this`previous
      ensures failed == fails(old(calls)) && calls == old(calls) + 1 && last == call && previous == old(last)
    {
      failed := fails(calls);
      calls := calls + 1;
      last, previous := call, last;
    }

    method Put(path: string, text: string)
      requires Valid()
      modifies this`files, this`history
      ensures Valid() && files == old(files)[path := text] && history == old(history) + [files]
    {
      files := files[path := text];
      history := history + [files];
    }

    /** A new empty file under a name that is not in use. */
    method MakeTemp(target: string) returns (tmp: Option<string>)
      requires Valid()
      modifies this
      ensures Valid()
      ensures calls == old(calls) + 1 && last == Making && tmp.None? == fails(old(calls))
      ensures tmp == None ==> files == old(files) && history == old(history)
      ensures tmp.Some? ==> tmp.value !in old(files) && tmp.value != target
      ensures tmp.Some? ==> files == old(files)[tmp.value := ""] && history == old(history) + [files]
    {
      var failed := Fails(Making);
      if failed {
        return None;
      }
      ghost var n := Longer(files.Keys + {target});
      assert |seq(n, _ => 'x')| == n;
      var name: string :| name !in files && name != target;
      Put(name, "");
      tmp := Some(name);
    }

    /** A failing write may leave any part of the text behind. */
    method Append(path: string, text: string) returns (ok: bool)
      requires Valid() && path in files
      modifies this
      ensures calls == old(calls) + 1 && last == Writing && !ok == fails(old(calls))
      ensures Valid() && path in files && files == old(files)[path := files[path]] && history == old(history) + [files]
      ensures ok ==> files == old(files)[path := old(files)[path] + text]
    {
      var failed := Fails(Writing);
      var kept: nat := |text|;
      if failed {
        kept :| kept <= |text|;
      }
      Put(path, files[path] + text[..kept]);
      ok := !failed;
      assert text[..|text|] == text;
    }

    /** Moves a file onto another in one step, or fails and does nothing. */
    method Replace(tmp: string, target: string) returns (ok: bool)
      requires Valid() && tmp in files && tmp != target
      modifies this
      ensures Valid()
      ensures calls == old(calls) + 1 && last == Moving && previous == old(last) && !ok == fails(old(calls))
      ensures ok ==> files == (old(files) - {tmp})[target := old(files)[tmp]] && history == old(history) + [files]
      ensures !ok ==> files == old(files) && history == old(history)
    {
      var failed := Fails(Moving);
      if !failed {
        files := (files - {tmp})[target := files[tmp]];
        history := history + [files];
      }
      ok := !failed;
    }

    method Remove(path: string) returns (ok: bool)
      requires Valid()
      modifies this
      ensures Valid()
      ensures calls == old(calls) + 1 && last == Removing && !ok == fails(old(calls))
      ensures ok ==> files == old(files) - {path} && history == old(history) + [files]
      ensures !ok ==> files == old(files) && history == old(history)
    {
      var failed := Fails(Removing);
      if !failed {
        files := files - {path};
        history := history + [files];
      }
      ok := !failed;
    }
  }

  lemma Longer(names: set<string>) returns (n: nat)
    ensures forall s :: s in names ==> |s| < n
  {
    n := 0;
    if names != {} {
      var s :| s in names;
      n := Longer(names - {s});
      if n <= |s| {
        n := |s| + 1;
      }
    }
  }

  function Concat(chunks: seq<string>): string
  {
    if chunks == [] then "" else Concat(chunks[..|chunks| - 1]) + chunks[|chunks| - 1]
  }

  // ------------------------------------------------------------------ what a crash can find

  /** Compared with `before`, the target is complete, old or new, and only the temporary file is
      otherwise different. */
  ghost predicate Intact(state: Disk, before: Disk, tmp: string, target: string, text: string)
  {
    && (At(state, target) == At(before, target) || At(state, target) == Some(text))
    && forall p :: p != target && p != tmp ==> At(state, p) == At(before, p)
  }

  /** All states recorded from `start` on are intact. */
  ghost predicate AllIntact(history: seq<Disk>, start: nat, before: Disk, tmp: string, target: string, text: string)
  {
    forall k :: start <= k < |history| ==> Intact(history[k], before, tmp, target, text)
  }

  /** The temporary file is being filled: nothing else has changed. */
  ghost predicate Filling(state: Disk, before: Disk, tmp: string)
  {
    tmp in state && state - {tmp} == before
  }

  /** After an exception: nothing has changed, but for a temporary file if closing or removing it
      was what failed. */
  ghost predicate Undone(fs: FileSystem, before: Disk, tmp: string)
    reads fs
  {
    fs.files == before || (Filling(fs.files, before, tmp) && fs.CleanupFailed())
  }

  /** Some call from number `from` on has failed. */
  ghost predicate SomeFailed(fs: FileSystem, from: nat)
    reads fs
  {
    exists k :: from <= k < fs.calls && fs.fails(k)
  }

  lemma FillingIsIntact(state: Disk, before: Disk, tmp: string, target: string, text: string)
    requires Filling(state, before, tmp) && tmp != target
    ensures Intact(state, before, tmp, target, text)
  {
    forall p | p != tmp ensures At(state, p) == At(before, p) {
      assert p in state <==> p in state - {tmp};
    }
  }

  lemma PutKeepsFilling(state: Disk, before: Disk, tmp: string, part: string)
    requires Filling(state, before, tmp)
    ensures Filling(state[tmp := part], before, tmp)
  {
    assert state[tmp := part] - {tmp} == state - {tmp};
  }

  /** The shared tail of both writers: fill the temporary file, move it into place, and remove it
      on any failure. Filling ends with a flush that may fail if `synced`. */
  method FillAndReplace(fs: FileSystem, tmp: string, target: string, chunks: seq<string>, synced: bool,
                        ghost before: Disk, ghost start: nat) returns (ok: bool)
    requires fs.Valid() && tmp != target && tmp !in before && fs.files == before[tmp := ""]
    requires start <= |fs.history| && AllIntact(fs.history, start, before, tmp, target, Concat(chunks))
    modifies fs
    ensures fs.Valid() && fs.calls >= old(fs.calls)
    ensures |fs.history| >= |old(fs.history)| && fs.history[..|old(fs.history)|] == old(fs.history)
    ensures AllIntact(fs.history, start, before, tmp, target, Concat(chunks))
    ensures if ok then fs.files == before[target := Concat(chunks)] else Undone(fs, before, tmp)
    ensures ok <==> !SomeFailed(fs, old(fs.calls))
    ensures ok && synced ==> fs.last == Moving && fs.previous == Syncing
  {
    assert Filling(fs.files, before, tmp);
    ok := FillTemp(fs, tmp, target, chunks, before, start);
    if ok && synced {
      var failed := fs.Fails(Syncing);
      ok := !failed;
    }
    if ok {
      ok := fs.Replace(tmp, target);
      if ok {
        assert fs.files == before[target := Concat(chunks)];
      }
    }
    if !ok {
      CleanUp(fs, tmp, target, Concat(chunks), before, start);
    }
  }

  method CleanUp(fs: FileSystem, tmp: string, target: string, ghost text: string, ghost before: Disk, ghost start: nat)
    requires fs.Valid() && tmp != target && Filling(fs.files, before, tmp)
    requires start <= |fs.history| && AllIntact(fs.history, start, before, tmp, target, text)
    modifies fs
    ensures fs.Valid() && fs.calls >= old(fs.calls)
    ensures |fs.history| >= |old(fs.history)| && fs.history[..|old(fs.history)|] == old(fs.history)
    ensures AllIntact(fs.history, start, before, tmp, target, text) && Undone(fs, before, tmp)
  {
    var removed := fs.Remove(tmp);
    if removed {
      assert fs.files == before;
    }
  }

  method FillTemp(fs: FileSystem, tmp: string, target: string, chunks: seq<string>,
                  ghost before: Disk, ghost start: nat) returns (ok: bool)
    requires fs.Valid() && tmp != target && Filling(fs.files, before, tmp) && fs.files[tmp] == ""
    requires start <= |fs.history| && AllIntact(fs.history, start, before, tmp, target, Concat(chunks))
    modifies fs
    ensures fs.Valid() && fs.calls >= old(fs.calls)
    ensures |fs.history| >= |old(fs.history)| && fs.history[..|old(fs.history)|] == old(fs.history)
    ensures AllIntact(fs.history, start, before, tmp, target, Concat(chunks))
    ensures Filling(fs.files, before, tmp)
    ensures ok ==> fs.files[tmp] == Concat(chunks)
    ensures ok <==> !SomeFailed(fs, old(fs.calls))
  {
    for i := 0 to |chunks|
      invariant fs.Valid() && |fs.history| >= |old(fs.history)| && fs.history[..|old(fs.history)|] == old(fs.history)
      invariant AllIntact(fs.history, start, before, tmp, target, Concat(chunks))
      invariant Filling(fs.files, before, tmp) && fs.files[tmp] == Concat(chunks[..i]) && fs.calls >= old(fs.calls)
      invariant !SomeFailed(fs, old(fs.calls))
    {
      ghost var was := fs.files;
      ok := fs.Append(tmp, chunks[i]);
      PutKeepsFilling(was, before, tmp, fs.files[tmp]);
      FillingIsIntact(fs.files, before, tmp, target, Concat(chunks));
      if !ok {
        return;
      }
      assert chunks[..i + 1][..i] == chunks[..i];
    }
    assert chunks[..|chunks|] == chunks;
    ok := true;
  }

  /** `atomic_write`: the writer puts `chunks` into the temporary file. Whatever fails, and wherever
      a crash strikes, the target is the complete old or the complete new file. */
  method AtomicWrite(fs: FileSystem, target: string, chunks: seq<string>) returns (ok: bool, ghost tmp: string)
    requires fs.Valid()
    modifies fs
    ensures fs.Valid() && fs.calls >= old(fs.calls)
    ensures |fs.history| >= |old(fs.history)| && fs.history[..|old(fs.history)|] == old(fs.history)
    ensures tmp !in old(fs.files) && AllIntact(fs.history, |old(fs.history)|, old(fs.files), tmp, target, Concat(chunks))
    ensures if ok then fs.files == old(fs.files)[target := Concat(chunks)] else Undone(fs, old(fs.files), tmp)
    ensures ok <==> !SomeFailed(fs, old(fs.calls))
  {
    var made := fs.MakeTemp(target);
    if made.None? {
      ghost var n := Longer(fs.files.Keys);
      tmp := seq(n, _ => 'x');
      return false, tmp;
    }
    tmp := made.value;
    PutKeepsFillingFirst(fs.files, old(fs.files), tmp);
    FillingIsIntact(fs.files, old(fs.files), tmp, target, Concat(chunks));
    // closing the descriptor comes before the guarded part: its failure leaves the temporary file
    var failed := fs.Fails(Closing);
    if failed {
      return false, tmp;
    }
    ok := FillAndReplace(fs, made.value, target, chunks, false, old(fs.files), |old(fs.history)|);
  }

  lemma PutKeepsFillingFirst(state: Disk, before: Disk, tmp: string)
    requires tmp !in before && state == before[tmp := ""]
    ensures Filling(state, before, tmp)
  {
    assert state - {tmp} == before;
  }
}
