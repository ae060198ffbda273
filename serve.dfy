/**
 * serve-bucket/serve.py: the object key `catch_all` asks the bucket for.
 * A path whose last segment names no file gets `index.html` joined to it;
 * the slashes at both ends are then stripped. The S3 request and the
 * streamed response are not modelled.
 */
module BucketServer {
  import opened PyStr
  import opened PosixPath

  const Slash: set<char> := {'/'}

  const IndexFile := "index.html"

  /** The last `/`-segment of the request path holds a `.`, so it names a file. */
  predicate NamesFile(path: string)
  {
    Contains(AfterLast(path, "/"), ".")
  }

  /** The bucket key served for a request path; it never starts or ends with `/`. */
  function ObjectKey(path: string): (key: string)
    ensures key == [] || (key[0] != '/' && key[|key| - 1] != '/')
  {
    var p := if NamesFile(path) then path else PathJoin(path, IndexFile);
    StripChars(p, Slash)
  }

  /** A string without `/` neither starts nor ends with one. */
  lemma {:induction false} NoSlashEnds(t: string)
    requires t != [] && !Contains(t, "/")
    ensures t[0] != '/' && t[|t| - 1] != '/'
  {
    assert !OccursAt(t, "/", 0) by {
      if OccursAt(t, "/", 0) {
        OccursContains(t, "/", 0);
      }
    }
    assert !OccursAt(t, "/", |t| - 1) by {
      if OccursAt(t, "/", |t| - 1) {
        OccursContains(t, "/", |t| - 1);
      }
    }
    assert t[0..1] == [t[0]] && t[|t| - 1..|t|] == [t[|t| - 1]];
  }

  /**
   * Stripping slashes keeps a suffix that neither starts nor ends with `/`,
   * and then only the leading slashes go.
   */
  lemma {:induction false} StripKeepsSuffix(s: string, t: string)
    requires t != [] && EndsWith(s, t)
    requires t[0] != '/' && t[|t| - 1] != '/'
    ensures StripChars(s, Slash) == LStrip(s, Slash)
    ensures EndsWith(StripChars(s, Slash), t)
  {
    var r := LStrip(s, Slash);
    LStripKeepsSuffix(s, t, Slash);
    assert r[|r| - 1] == t[|t| - 1];
    RStripUntouched(r, Slash);
  }

  /** A path naming a directory (or nothing) is served its `index.html`. */
  lemma {:induction false} DirectoryKey(path: string)
    requires !NamesFile(path)
    ensures ObjectKey(path) == StripChars(PathJoin(path, IndexFile), Slash)
    ensures EndsWith(ObjectKey(path), IndexFile)
  {
    StripKeepsSuffix(PathJoin(path, IndexFile), IndexFile);
  }

  /**
   * A path naming a file is only stripped of its leading slashes, and the
   * key still ends with the file's name.
   */
  lemma {:induction false} FileKey(path: string)
    requires NamesFile(path)
    ensures ObjectKey(path) == LStrip(path, Slash)
    ensures EndsWith(ObjectKey(path), AfterLast(path, "/"))
  {
    var last := AfterLast(path, "/");
    SplitAtLast(path, "/");
    AfterLastSuffix(path, "/");
    NoSlashEnds(last);
    StripKeepsSuffix(path, last);
  }

  /** A string that neither starts nor ends with `/` is not changed by stripping. */
  lemma {:induction false} StripUntouched(s: string)
    requires s != [] && s[0] != '/' && s[|s| - 1] != '/'
    ensures StripChars(s, Slash) == s
  {
    assert LStrip(s, Slash) == s;
    RStripUntouched(s, Slash);
  }

  /** When the joined path does not start with `/`, the key is the joined path itself. */
  lemma {:induction false} JoinedKey(path: string)
    requires !NamesFile(path) && PathJoin(path, IndexFile)[0] != '/'
    ensures ObjectKey(path) == PathJoin(path, IndexFile)
  {
    var j := PathJoin(path, IndexFile);
    DirectoryKey(path);
    assert j[|j| - 1] == IndexFile[|IndexFile| - 1];
    StripUntouched(j);
  }

  /** The root path is served the top-level index. */
  lemma {:induction false} RootKey(path: string)
    requires path == ""
    ensures ObjectKey(path) == "index.html"
  {
    assert !NamesFile(path) by {
      SplitAtLast(path, "/");
      assert AfterLast(path, "/") == "";
    }
    DirectoryKey(path);
    assert PathJoin(path, IndexFile) == IndexFile;
    StripUntouched(IndexFile);
  }

  /** A bare directory name, one segment without a `.`, gets `/index.html`. */
  lemma {:induction false} BareDirectoryKey(name: string)
    requires name != "" && '/' !in name && '.' !in name
    ensures ObjectKey(name) == name + "/" + IndexFile
  {
    assert !NamesFile(name) by {
      CharAbsent(name, "/", 0);
      SplitAtLast(name, "/");
      CharAbsent(AfterLast(name, "/"), ".", 0);
    }
    assert !StartsWith(IndexFile, "/") by {
      assert IndexFile[0] != '/';
    }
    assert PathJoin(name, IndexFile) == name + "/" + IndexFile;
    JoinedKey(name);
  }

  /** After a trailing slash the last segment is empty. */
  lemma {:induction false} TrailingSlashLast(path: string)
    requires path != [] && path[|path| - 1] == '/'
    ensures AfterLast(path, "/") == ""
  {
    var last := AfterLast(path, "/");
    var n := |path| - 1;
    assert OccursAt(path, "/", n);
    OccursContains(path, "/", n);
    SplitAtLast(path, "/");
    if last != "" {
      NoSlashEnds(last);
      assert false;
    }
  }

  /**
   * A directory path written with its trailing slash gets `index.html`
   * with no doubled slash, whatever the earlier segments hold.
   */
  lemma {:induction false} SlashedDirectoryKey(dir: string)
    requires dir != "" && dir[0] != '/'
    ensures ObjectKey(dir + "/") == dir + "/" + IndexFile
  {
    var path := dir + "/";
    assert !NamesFile(path) by {
      TrailingSlashLast(path);
      assert !Contains("", ".");
    }
    assert !StartsWith(IndexFile, "/") by {
      assert IndexFile[0] != '/';
    }
    assert PathJoin(path, IndexFile) == path + IndexFile;
    assert path + IndexFile == dir + "/" + IndexFile;
    JoinedKey(path);
  }
}
