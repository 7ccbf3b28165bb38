/** The two QFileInfo queries the launch-command builder relies on. Paths use
    '/' as their only separator, as QFileInfo does on Unix-like systems. */
module QtFileInfo {
  import opened QtString

  const Separator: char := '/'

  /** `QFileInfo(path).fileName()`: the part of the path after its last
      separator; the whole path when it has none. */
  function FileName(path: string): (r: string)
    ensures Separator !in r && |r| <= |path|
  {
    var start := LastIndexOf(path, Separator) + 1;
    LastIndexOfIsLast(path, Separator);
    assert forall k :: 0 <= k < |path| - start ==> path[start..][k] == path[start + k];
    path[start..]
  }

  /** The file name is the last segment of the path: a suffix of it, preceded
      by a separator unless it is the whole path. */
  lemma FileNameIsLastSegment(path: string)
    ensures FileName(path) == path[|path| - |FileName(path)|..]
    ensures |FileName(path)| < |path| ==> path[|path| - |FileName(path)| - 1] == Separator
  {
  }

  /** `QFileInfo(path).completeBaseName()`: the file name up to, but not
      including, its last '.'; the whole file name when it has no '.'. */
  function CompleteBaseName(path: string): (r: string)
    ensures Separator !in r
  {
    var name := FileName(path);
    var dot := LastIndexOf(name, '.');
    if dot < 0 then name else name[..dot]
  }

  /** The complete base name is the file name with its last extension
      stripped: a prefix of the file name, followed there by a '.' after
      which no '.' remains, or the whole file name when it has no '.'. */
  lemma CompleteBaseNameIsStem(path: string)
    ensures CompleteBaseName(path) <= FileName(path)
    ensures '.' in FileName(path) ==>
      |CompleteBaseName(path)| < |FileName(path)| &&
      FileName(path)[|CompleteBaseName(path)|] == '.' &&
      '.' !in FileName(path)[|CompleteBaseName(path)| + 1..]
    ensures '.' !in FileName(path) ==> CompleteBaseName(path) == FileName(path)
  {
    var name := FileName(path);
    LastIndexOfAbsent(name, '.');
    LastIndexOfIsLast(name, '.');
    var dot := LastIndexOf(name, '.');
    if dot >= 0 {
      var tail := name[dot + 1..];
      forall i | 0 <= i < |tail| ensures tail[i] != '.' {
        assert tail[i] == name[dot + 1 + i];
      }
    }
  }

  /** The file name of a path is what follows its directory part. */
  lemma FileNameOf(path: string, dir: string, name: string)
    requires path == dir + name
    requires dir == [] || dir[|dir| - 1] == Separator
    requires Separator !in name
    ensures FileName(path) == name
  {
    if dir == [] {
      assert path == name;
      LastIndexOfAbsent(name, Separator);
    } else {
      assert path[|dir| - 1] == Separator;
      forall j | |dir| - 1 < j < |path| ensures path[j] != Separator {
        assert path[j] == name[j - |dir|];
      }
      LastIndexOfIs(path, Separator, |dir| - 1);
    }
    assert path[|dir|..] == name;
  }

  /** Within a file name `base.ext`, the last '.' is the one after `base`. */
  lemma LastDotOf(name: string, base: string, ext: string)
    requires name == base + "." + ext && '.' !in ext
    ensures LastIndexOf(name, '.') == |base|
  {
    forall j | |base| < j < |name| ensures name[j] != '.' {
      assert name[j] == ext[j - |base| - 1];
    }
    LastIndexOfIs(name, '.', |base|);
  }

  /** The complete base name strips exactly the last extension of the file
      name, whatever directory precedes it and however many '.' the base
      contains. */
  lemma CompleteBaseNameOf(path: string, dir: string, base: string, ext: string)
    requires path == dir + base + "." + ext
    requires dir == [] || dir[|dir| - 1] == Separator
    requires Separator !in base && Separator !in ext && '.' !in ext
    ensures CompleteBaseName(path) == base
  {
    var name := base + "." + ext;
    NameOfParts(path, dir, name, base, ext);
    FileNameOf(path, dir, name);
    LastDotOf(name, base, ext);
  }

  lemma NameOfParts(path: string, dir: string, name: string, base: string, ext: string)
    requires path == dir + base + "." + ext && name == base + "." + ext
    requires Separator !in base && Separator !in ext
    ensures path == dir + name && Separator !in name && name[..|base|] == base
  {
    assert forall c :: c in name ==> c in base || c == '.' || c in ext;
  }

  /** A file name without any '.' is its own complete base name. */
  lemma CompleteBaseNameWithoutExtension(path: string, dir: string, name: string)
    requires path == dir + name
    requires dir == [] || dir[|dir| - 1] == Separator
    requires Separator !in name && '.' !in name
    ensures CompleteBaseName(path) == name
  {
    FileNameOf(path, dir, name);
  }
  /** Every character of the complete base name comes from the path. */
  lemma CompleteBaseNameChars(path: string, c: char)
    requires c in CompleteBaseName(path)
    ensures c in path
  {
    var name := FileName(path);
    var r := CompleteBaseName(path);
    CompleteBaseNameIsStem(path);
    FileNameIsLastSegment(path);
    var i :| 0 <= i < |r| && r[i] == c;
    assert name[i] == c;
    assert path[|path| - |name| + i] == c;
  }

  lemma ExampleManyDots()
    ensures CompleteBaseName("a.b.tar.gz") == "a.b.tar"
  {
    CompleteBaseNameOf("a.b.tar.gz", "", "a.b.tar", "gz");
  }

  lemma ExampleNoExtension()
    ensures CompleteBaseName("noext") == "noext"
  {
    CompleteBaseNameWithoutExtension("noext", "", "noext");
  }
}
