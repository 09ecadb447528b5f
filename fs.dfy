/** The heartbeat directory the Leader writes to: its files with their
    modification times (whole seconds) and contents. Faults of the
    filesystem calls are inputs of the model. */
module Fs {
  import opened Wrappers

  datatype File = File(name: string, modTime: int, content: string)

  /** A directory never holds two files with the same name. */
  ghost predicate UniqueNames(files: seq<File>)
  {
    forall i, j :: 0 <= i < j < |files| ==> files[i].name != files[j].name
  }

  /** The names of `files`. */
  function NameSet(files: seq<File>): (r: set<string>)
    ensures forall i :: 0 <= i < |files| ==> files[i].name in r
  {
    if |files| == 0 then {} else NameSet(files[..|files| - 1]) + {files[|files| - 1].name}
  }

  /** Every name in `NameSet(files)` belongs to one of `files`. */
  lemma {:induction false} NameSetOwner(files: seq<File>, name: string) returns (i: nat)
    requires name in NameSet(files)
    ensures i < |files| && files[i].name == name
  {
    var init := files[..|files| - 1];
    if name in NameSet(init) {
      i := NameSetOwner(init, name);
    } else {
      i := |files| - 1;
    }
  }

  /** The files whose names are not in `gone`, in their order. */
  function Without(files: seq<File>, gone: set<string>): (r: seq<File>)
    ensures |r| <= |files|
  {
    if |files| == 0 then []
    else Without(files[..|files| - 1], gone)
         + (if files[|files| - 1].name in gone then [] else [files[|files| - 1]])
  }

  /** The directory after removals holds exactly the files whose names were
      not removed. */
  lemma {:induction false} WithoutMembers(files: seq<File>, gone: set<string>)
    ensures forall f :: f in Without(files, gone) <==> f in files && f.name !in gone
  {
    if |files| > 0 {
      var init, last := files[..|files| - 1], files[|files| - 1];
      WithoutMembers(init, gone);
      assert files == init + [last];
    }
  }

  /** The position of the file called `name`, or -1. */
  function Lookup(files: seq<File>, name: string): (r: int)
    ensures -1 <= r < |files|
    ensures r == -1 <==> forall f :: f in files ==> f.name != name
    ensures r != -1 ==> files[r].name == name
  {
    if |files| == 0 then -1
    else if files[|files| - 1].name == name then |files| - 1
    else Lookup(files[..|files| - 1], name)
  }

  /** The directory after `os.WriteFile` of `f`: an existing file of that name
      is overwritten where it is, otherwise the new file is added. */
  function Written(files: seq<File>, f: File): seq<File>
  {
    var k := Lookup(files, f.name);
    if k == -1 then files + [f] else files[k := f]
  }

  lemma WrittenKeepsUniqueNames(files: seq<File>, f: File)
    requires UniqueNames(files)
    ensures UniqueNames(Written(files, f))
    ensures f in Written(files, f)
  {
    var k := Lookup(files, f.name);
    if k != -1 {
      assert Written(files, f)[k] == f;
    }
  }

  /** A write adds no file but the one written. */
  lemma WrittenFrom(files: seq<File>, f: File)
    ensures forall g :: g in Written(files, f) ==> g in files || g == f
  {
    var k := Lookup(files, f.name);
    if k != -1 {
      forall g | g in Written(files, f)
        ensures g in files || g == f
      {
        var j :| 0 <= j < |files| && Written(files, f)[j] == g;
        if j != k {
          assert files[j] == g;
        }
      }
    }
  }

  lemma {:induction false} WithoutKeepsUniqueNames(files: seq<File>, gone: set<string>)
    requires UniqueNames(files)
    ensures UniqueNames(Without(files, gone))
  {
    if |files| > 0 {
      WithoutKeepsUniqueNames(files[..|files| - 1], gone);
      WithoutMembers(files[..|files| - 1], gone);
    }
  }

  lemma {:induction false} WithoutTwice(files: seq<File>, gone: set<string>, name: string)
    ensures Without(Without(files, gone), {name}) == Without(files, gone + {name})
  {
    if |files| > 0 {
      var init := files[..|files| - 1];
      var last := files[|files| - 1];
      WithoutTwice(init, gone, name);
      var w := Without(init, gone);
      if last.name in gone {
        assert Without(files, gone) == w;
        assert Without(files, gone + {name}) == Without(init, gone + {name});
      } else {
        assert Without(files, gone) == w + [last];
        assert (w + [last])[..|w|] == w;
        assert Without(w + [last], {name}) == Without(w, {name}) + (if last.name == name then [] else [last]);
      }
    }
  }

  lemma {:induction false} WithoutNothing(files: seq<File>)
    ensures Without(files, {}) == files
  {
    if |files| > 0 {
      WithoutNothing(files[..|files| - 1]);
      assert files == files[..|files| - 1] + [files[|files| - 1]];
    }
  }

  /** Extending a prefix by one file adds that file's name. */
  lemma NameSetPrefix(files: seq<File>, i: nat)
    requires i < |files|
    ensures NameSet(files[..i + 1]) == NameSet(files[..i]) + {files[i].name}
  {
    assert files[..i + 1][..i] == files[..i];
  }

  /** The working directory of the Leader state. */
  class Directory {
    var files: seq<File>

    ghost predicate Valid()
      reads this
    {
      UniqueNames(files)
    }

    constructor (initial: seq<File>)
      requires UniqueNames(initial)
      ensures Valid() && files == initial
    {
      files := initial;
    }

    /** `os.WriteFile(name, content)` at time `now`, which fails with
        `fault` when one is given. */
    method WriteFile(name: string, content: string, now: int, fault: Option<Error>) returns (err: Option<Error>)
      requires Valid()
      modifies this
      ensures Valid()
      ensures err == fault
      ensures files == if fault.Some? then old(files) else Written(old(files), File(name, now, content))
    {
      err := fault;
      if fault.None? {
        WrittenKeepsUniqueNames(files, File(name, now, content));
        files := Written(files, File(name, now, content));
      }
    }

    /** `ioutil.ReadDir`: the directory's entries, or `fault`. */
    method ReadDir(fault: Option<Error>) returns (listing: seq<File>, err: Option<Error>)
      ensures err == fault
      ensures fault.None? ==> listing == files
    {
      err := fault;
      listing := if fault.None? then files else [];
    }

    /** `os.Remove(name)`, which fails with `fault` when one is given. */
    method Remove(name: string, fault: Option<Error>) returns (err: Option<Error>)
      requires Valid()
      modifies this
      ensures Valid()
      ensures err == fault
      ensures files == if fault.Some? then old(files) else Without(old(files), {name})
    {
      err := fault;
      if fault.None? {
        WithoutKeepsUniqueNames(files, {name});
        files := Without(files, {name});
      }
    }
  }
}
