/** Replacing a small authority file so that no instant shows a partial one. */
module InstallerAuthority {
  type File = seq<bv8>

  const LINE_FEED: bv8 := 10

  /** A directory of small files. `seen` is every state the directory ever had on disk. */
  class Directory {
    var files: map<string, File>
    ghost var seen: seq<map<string, File>>

    ghost predicate Valid()
      reads this
    {
      seen != [] && seen[|seen| - 1] == files
    }

    constructor (files: map<string, File>)
      ensures Valid() && this.files == files && seen == [files]
    {
      this.files := files;
      seen := [files];
    }

    /** Whether the next call fails. */
    method Fails() returns (failed: bool) {
      failed := *;
    }

    method Put(name: string, content: File)
      requires Valid()
      modifies this
      ensures Valid() && files == old(files)[name := content] && seen == old(seen) + [files]
    {
      files := files[name := content];
      seen := seen + [files];
    }

    method Remove(name: string)
      requires Valid()
      modifies this
      ensures Valid() && files == old(files) - {name} && seen == old(seen) + [files]
    {
      files := files - {name};
      seen := seen + [files];
    }

    /** `rename`: one instant in which `source` goes and `target` changes. */
    method Rename(source: string, target: string)
      requires Valid() && source in files && source != target
      modifies this
      ensures Valid() && files == (old(files) - {source})[target := old(files)[source]] && seen == old(seen) + [files]
    {
      files := (files - {source})[target := files[source]];
      seen := seen + [files];
    }

    /** Writes `bytes` and a line feed under the temporary name `next`, then renames it to `name`.
        Any call may fail and the process may be killed at any instant; in each of them `name` has
        its old content or all of the new one, and no file but `next` is touched besides. */
    method WriteAtomic(name: string, next: string, bytes: File) returns (ok: bool)
      requires Valid() && name != next
      modifies this
      ensures Valid() && old(seen) <= seen
      ensures forall i | |old(seen)| <= i < |seen| :: Intact(old(files), seen[i], name, next, bytes + [LINE_FEED])
      ensures ok ==> files == (old(files) - {next})[name := bytes + [LINE_FEED]]
      ensures !ok ==> Intact(old(files), files, name, next, bytes + [LINE_FEED])
    {
      ghost var all := bytes + [LINE_FEED];
      var failed := Fails();
      if !failed && next in files {
        Remove(next);
      }
      failed := Fails();
      if failed || next in files {
        return false;
      }
      Put(next, []);
      var written := 0;
      while written < |bytes| + 1
        invariant Valid() && old(seen) <= seen && written <= |bytes| + 1
        invariant next in files && files[next] == all[..written] && files - {next} == old(files) - {next}
        invariant forall i | |old(seen)| <= i < |seen| :: Intact(old(files), seen[i], name, next, all)
      {
        failed := Fails();
        if failed {
          return false;
        }
        var byte := if written < |bytes| then bytes[written] else LINE_FEED;
        assert all[..written + 1] == all[..written] + [byte];
        ghost var before := files;
        Put(next, files[next] + [byte]);
        assert files - {next} == before - {next};
        written := written + 1;
      }
      failed := Fails();
      if failed {
        return false;
      }
      assert all[..written] == all;
      Rename(next, name);
      failed := Fails();
      ok := !failed;
    }
  }

  /** `name` is as before or complete, and every file other than `next` is as before. */
  predicate Intact(before: map<string, File>, now: map<string, File>, name: string, next: string, content: File) {
    now - {next} == before - {next} || now - {next} == (before - {next})[name := content]
  }
}
