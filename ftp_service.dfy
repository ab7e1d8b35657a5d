/**
 * `services/ftp_service.py`: uploads to the company FTP server. The server
 * is a set of directories, the directories it refuses to create, and a map
 * from (directory, file name) to contents. `ftp` is the nullable
 * connection field; the commands sent to the server are recorded in `sent`.
 * Whether connecting and logging in, storing or listing fails for network
 * reasons is a parameter; a deletion fails only when the file is missing.
 */
module Ftp {
  import opened Wrappers
  import opened FileService

  /** A logged-in connection and its working directory. */
  datatype Session = Session(cwd: string)

  /** The commands of `ftplib` that the service sends. */
  datatype Command = Cwd(path: string) | Mkd(path: string) | Stor(dir: string, name: string)
                   | Nlst(dir: string) | Dele(dir: string, name: string) | Quit

  // ---------- path.strip('/').split('/') and the cumulative prefixes ----------

  /** `s.strip('/')`: removes every leading and trailing `/`, and nothing
      else. */
  function Strip(s: string): (r: string)
    ensures |r| <= |s|
    ensures r != [] ==> r[0] != '/' && r[|r| - 1] != '/'
    ensures s != [] && s[0] != '/' && s[|s| - 1] != '/' ==> r == s
    decreases |s|
  {
    if s == [] then []
    else if s[0] == '/' then Strip(s[1..])
    else if s[|s| - 1] == '/' then Strip(s[..|s| - 1])
    else s
  }

  /** What `strip` keeps is one slice of its input, and only `/` lies
      outside that slice. */
  lemma {:induction false} StripSlice(s: string)
    ensures exists i, j :: 0 <= i <= j <= |s| && Strip(s) == s[i..j] && Slashes(s, i, j)
    decreases |s|
  {
    if s == [] {
      assert Strip(s) == s[0..0] && Slashes(s, 0, 0);
    } else if s[0] == '/' {
      var t := s[1..];
      StripSlice(t);
      var i, j :| 0 <= i <= j <= |t| && Strip(t) == t[i..j] && Slashes(t, i, j);
      SlashesAfterLeading(s, i, j);
      assert t[i..j] == s[i + 1..j + 1];
    } else if s[|s| - 1] == '/' {
      var t := s[..|s| - 1];
      StripSlice(t);
      var i, j :| 0 <= i <= j <= |t| && Strip(t) == t[i..j] && Slashes(t, i, j);
      SlashesBeforeTrailing(s, i, j);
      assert t[i..j] == s[i..j];
    } else {
      assert Strip(s) == s[0..|s|] && Slashes(s, 0, |s|);
    }
  }

  lemma SlashesAfterLeading(s: string, i: nat, j: nat)
    requires s != [] && s[0] == '/' && i <= j <= |s| - 1 && Slashes(s[1..], i, j)
    ensures Slashes(s, i + 1, j + 1)
  {
    forall k | 0 <= k < |s| && (k < i + 1 || j + 1 <= k)
      ensures s[k] == '/'
    {
      if k > 0 {
        assert s[k] == s[1..][k - 1];
      }
    }
  }

  lemma SlashesBeforeTrailing(s: string, i: nat, j: nat)
    requires s != [] && s[|s| - 1] == '/' && i <= j <= |s| - 1 && Slashes(s[..|s| - 1], i, j)
    ensures Slashes(s, i, j)
  {
    forall k | 0 <= k < |s| && (k < i || j <= k)
      ensures s[k] == '/'
    {
      if k < |s| - 1 {
        assert s[k] == s[..|s| - 1][k];
      }
    }
  }

  /** Every character of `s` outside `s[i..j]` is a `/`. */
  predicate Slashes(s: string, i: nat, j: nat)
    requires i <= j <= |s|
  {
    forall k :: 0 <= k < |s| && (k < i || j <= k) ==> s[k] == '/'
  }

  /** `s.split('/')`: the pieces between the separators, possibly empty;
      always at least one. */
  function Split(s: string): (parts: seq<string>)
    ensures |parts| >= 1
    ensures forall i :: 0 <= i < |parts| ==> '/' !in parts[i]
    decreases |s|
  {
    if '/' !in s then [s]
    else
      var k := IndexOfSlash(s);
      [s[..k]] + Split(s[k + 1..])
  }

  /** The position of the first `/` in `s`. */
  function IndexOfSlash(s: string): (k: nat)
    requires '/' in s
    ensures k < |s| && s[k] == '/' && '/' !in s[..k]
  {
    if s[0] == '/' then 0
    else
      var k := IndexOfSlash(s[1..]);
      assert s[..k + 1] == [s[0]] + s[1..][..k];
      k + 1
  }

  /** `'/'.join(parts)`. */
  function Join(parts: seq<string>): string
    requires |parts| >= 1
  {
    if |parts| == 1 then parts[0] else parts[0] + "/" + Join(parts[1..])
  }

  /** Splitting and joining again gives the string back. */
  lemma {:induction false} JoinSplit(s: string)
    ensures Join(Split(s)) == s
    decreases |s|
  {
    if '/' in s {
      var k := IndexOfSlash(s);
      var rest := Split(s[k + 1..]);
      assert Split(s) == [s[..k]] + rest;
      assert ([s[..k]] + rest)[1..] == rest;
      JoinSplit(s[k + 1..]);
      assert s == s[..k] + "/" + s[k + 1..];
    }
  }

  /** `current_path` after the loop read `parts`: `/p1/p2/…`. */
  function PathOf(parts: seq<string>): (p: string)
    ensures |p| >= |parts|
  {
    if parts == [] then "" else PathOf(parts[..|parts| - 1]) + "/" + parts[|parts| - 1]
  }

  /** The values `current_path` takes, one per part, in order. */
  function Prefixes(parts: seq<string>): (ps: seq<string>)
    ensures |ps| == |parts|
  {
    if parts == [] then [] else Prefixes(parts[..|parts| - 1]) + [PathOf(parts)]
  }

  /** The `i`-th prefix is the path of the first `i + 1` parts. */
  lemma {:induction false} PrefixesAt(parts: seq<string>, i: nat)
    requires i < |parts|
    ensures Prefixes(parts)[i] == PathOf(parts[..i + 1])
    decreases |parts|
  {
    var front := parts[..|parts| - 1];
    if i < |front| {
      PrefixesAt(front, i);
      assert front[..i + 1] == parts[..i + 1];
    } else {
      assert parts[..i + 1] == parts;
    }
  }

  lemma {:induction false} PathOfLength(parts: seq<string>, i: nat)
    requires i < |parts|
    ensures |PathOf(parts[..i + 1])| < |PathOf(parts)| || i == |parts| - 1
    decreases |parts|
  {
    if i < |parts| - 1 {
      var front := parts[..|parts| - 1];
      assert front[..i + 1] == parts[..i + 1];
      PathOfLength(front, i);
      assert parts[..|parts|] == parts;
    }
  }

  /** Each prefix is strictly longer than the one before, so the loop never
      visits a directory twice. */
  lemma PrefixesGrow(parts: seq<string>)
    ensures forall i, j :: 0 <= i < j < |parts| ==> |Prefixes(parts)[i]| < |Prefixes(parts)[j]|
    ensures forall i, j :: 0 <= i < j < |parts| ==> Prefixes(parts)[i] != Prefixes(parts)[j]
  {
    forall i, j | 0 <= i < j < |parts|
      ensures |Prefixes(parts)[i]| < |Prefixes(parts)[j]|
    {
      PrefixesAt(parts, i);
      PrefixesAt(parts, j);
      var upto := parts[..j + 1];
      assert upto[..i + 1] == parts[..i + 1];
      PathOfLength(upto, i);
    }
  }

  /** No earlier prefix equals the `i`-th. */
  lemma PrefixIsNew(parts: seq<string>, i: nat)
    requires i < |parts|
    ensures Prefixes(parts)[i] !in Prefixes(parts)[..i]
  {
    PrefixesGrow(parts);
  }

  /** The last prefix is the whole path behind one leading `/`. */
  lemma {:induction false} PathOfJoin(parts: seq<string>)
    requires |parts| >= 1
    ensures PathOf(parts) == "/" + Join(parts)
    decreases |parts|
  {
    if |parts| == 1 {
      assert parts[..0] == [];
    } else {
      var front := parts[..|parts| - 1];
      PathOfJoin(front);
      JoinSnoc(front, parts[|parts| - 1]);
      assert front + [parts[|parts| - 1]] == parts;
    }
  }

  lemma {:induction false} JoinSnoc(parts: seq<string>, last: string)
    requires |parts| >= 1
    ensures Join(parts + [last]) == Join(parts) + "/" + last
    decreases |parts|
  {
    if |parts| > 1 {
      assert (parts + [last])[1..] == parts[1..] + [last];
      JoinSnoc(parts[1..], last);
    }
  }

  /** The directories `_create_directory_recursive(path)` walks through. */
  function DirectoriesOf(path: string): seq<string> {
    Prefixes(Split(Strip(path)))
  }

  /** The walk ends at the stripped path, and visits one directory per
      part. */
  lemma DirectoriesOfEnd(path: string)
    ensures |DirectoriesOf(path)| == |Split(Strip(path))|
    ensures DirectoriesOf(path)[|DirectoriesOf(path)| - 1] == "/" + Strip(path)
  {
    var parts := Split(Strip(path));
    PrefixesAt(parts, |parts| - 1);
    assert parts[..|parts|] == parts;
    PathOfJoin(parts);
    JoinSplit(Strip(path));
  }

  /** The commands of the walk: `cwd` into each prefix, and `mkd` only where
      that failed because the directory did not exist. */
  function WalkCommands(ps: seq<string>, dirs: set<string>): seq<Command> {
    if ps == [] then []
    else [Cwd(ps[0])] + (if ps[0] in dirs then [] else [Mkd(ps[0])]) + WalkCommands(ps[1..], dirs)
  }

  /** The `cwd` targets of a command list, in order. */
  function CwdTargets(cs: seq<Command>): seq<string> {
    if cs == [] then []
    else (if cs[0].Cwd? then [cs[0].path] else []) + CwdTargets(cs[1..])
  }

  lemma {:induction false} CwdTargetsAppend(a: seq<Command>, b: seq<Command>)
    ensures CwdTargets(a + b) == CwdTargets(a) + CwdTargets(b)
    decreases |a|
  {
    if a == [] {
      assert a + b == b;
    } else {
      assert (a + b)[0] == a[0];
      assert (a + b)[1..] == a[1..] + b;
      CwdTargetsAppend(a[1..], b);
    }
  }

  /** Every prefix gets its `cwd`, whatever `mkd` does: a failed creation
      does not stop the walk. */
  lemma {:induction false} WalkVisitsAll(ps: seq<string>, dirs: set<string>)
    ensures CwdTargets(WalkCommands(ps, dirs)) == ps
    decreases |ps|
  {
    if ps != [] {
      var head := [Cwd(ps[0])] + (if ps[0] in dirs then [] else [Mkd(ps[0])]);
      CwdTargetsAppend(head, WalkCommands(ps[1..], dirs));
      assert CwdTargets(head) == [ps[0]] by {
        assert head[1..] == (if ps[0] in dirs then [] else [Mkd(ps[0])]);
        if ps[0] !in dirs {
          assert head[1..][1..] == [];
        }
      }
      WalkVisitsAll(ps[1..], dirs);
    }
  }

  /** `mkd p` is sent only for a prefix `p` that was not a directory. */
  lemma {:induction false} WalkMkdOnlyMissing(ps: seq<string>, dirs: set<string>, i: nat)
    requires i < |WalkCommands(ps, dirs)| && WalkCommands(ps, dirs)[i].Mkd?
    ensures WalkCommands(ps, dirs)[i].path in ps && WalkCommands(ps, dirs)[i].path !in dirs
    ensures i > 0 && WalkCommands(ps, dirs)[i - 1] == Cwd(WalkCommands(ps, dirs)[i].path)
    decreases |ps|
  {
    var head := [Cwd(ps[0])] + (if ps[0] in dirs then [] else [Mkd(ps[0])]);
    var cs := WalkCommands(ps, dirs);
    assert cs == head + WalkCommands(ps[1..], dirs);
    if i >= |head| {
      WalkMkdOnlyMissing(ps[1..], dirs, i - |head|);
    }
  }

  /** The prefixes the server lets the walk create. */
  function Creatable(ps: seq<string>, denied: set<string>): (r: set<string>)
    ensures forall p :: p in r <==> p in ps && p !in denied
  {
    if ps == [] then {}
    else Creatable(ps[..|ps| - 1], denied) + (if ps[|ps| - 1] in denied then {} else {ps[|ps| - 1]})
  }

  /** The working directory after the walk: the last prefix that existed. */
  function WalkCwd(ps: seq<string>, dirs: set<string>, cwd: string): string {
    if ps == [] then cwd
    else if ps[|ps| - 1] in dirs then ps[|ps| - 1]
    else WalkCwd(ps[..|ps| - 1], dirs, cwd)
  }

  /** The loop of `_create_directory_recursive` over the parts of a path:
      `current_path` grows by one part per round; `cwd` into it, and on
      failure `mkd` it, which the server may refuse. Returns the working
      directory, the directories and the commands afterwards. */
  method Walk(parts: seq<string>, dirs: set<string>, cwd0: string, denied: set<string>)
    returns (cwd: string, d: set<string>, ghost cs: seq<Command>)
    ensures cwd == WalkCwd(Prefixes(parts), dirs, cwd0)
    ensures d == dirs + Creatable(Prefixes(parts), denied)
    ensures cs == WalkCommands(Prefixes(parts), dirs)
  {
    ghost var ps := Prefixes(parts);
    cs := [];
    cwd, d := cwd0, dirs;
    var current := "";
    var i := 0;
    while i < |parts|
      invariant 0 <= i <= |parts|
      invariant current == PathOf(parts[..i])
      invariant cs == WalkCommands(ps[..i], dirs)
      invariant d == dirs + Creatable(ps[..i], denied)
      invariant cwd == WalkCwd(ps[..i], dirs, cwd0)
    {
      current := current + "/" + parts[i];
      NextPrefix(parts, i, current);
      WalkStep(ps, i, dirs, cwd0, denied);
      cs := cs + [Cwd(current)];
      if current in d {
        cwd := current;
      } else {
        cs := cs + [Mkd(current)];
        if current !in denied {
          d := d + {current};
        }
      }
      i := i + 1;
    }
    assert ps[..i] == ps;
  }

  /** The directories of the server after `_connect`: the walk runs only
      when the server is reachable and the upload directory is missing. */
  function ConnectedDirs(uploadPath: string, dirs: set<string>, denied: set<string>, reachable: bool): (d: set<string>)
    ensures dirs <= d
    ensures forall p :: p in d && p !in dirs ==> reachable && p in DirectoriesOf(uploadPath) && p !in denied
  {
    if reachable && uploadPath !in dirs then dirs + Creatable(DirectoriesOf(uploadPath), denied) else dirs
  }

  /** The commands `_connect` sends: nothing to an unreachable server, else
      `cwd` into the upload directory and, when it is missing, the walk and
      a second `cwd`. */
  function ConnectCommands(uploadPath: string, dirs: set<string>, reachable: bool): seq<Command> {
    if !reachable then []
    else if uploadPath in dirs then [Cwd(uploadPath)]
    else [Cwd(uploadPath)] + WalkCommands(DirectoriesOf(uploadPath), dirs) + [Cwd(uploadPath)]
  }

  /** The command log regrouped: what is appended in steps is appended as
      one block. */
  lemma Regroup(log: seq<Command>, a: seq<Command>, b: seq<Command>, c: seq<Command>)
    ensures log + a + b + c == log + (a + b + c)
    ensures log + a + b == log + (a + b)
  {
  }

  /** `_connect` succeeds iff the server is reachable and the upload
      directory exists once the walk is done. */
  predicate ConnectSucceeds(uploadPath: string, dirs: set<string>, denied: set<string>, reachable: bool) {
    reachable && uploadPath in ConnectedDirs(uploadPath, dirs, denied, reachable)
  }

  /** A missing upload directory is created by the walk iff the server does
      not refuse its last prefix, which is the path itself behind a `/`. */
  lemma {:induction false} ConnectCreatesUploadPath(uploadPath: string, dirs: set<string>, denied: set<string>)
    requires uploadPath !in dirs
    requires uploadPath == "/" + Strip(uploadPath)
    ensures ConnectSucceeds(uploadPath, dirs, denied, true) <==> uploadPath !in denied
  {
    DirectoriesOfEnd(uploadPath);
  }

  class FTPService {
    /** `FTP_UPLOAD_PATH`. */
    const uploadPath: string
    /** `self.ftp`. */
    var ftp: Option<Session>
    /** The directories of the server. */
    var dirs: set<string>
    /** Directories the server refuses to create (`mkd` raises `error_perm`). */
    const denied: set<string>
    /** The stored files, by directory and name. */
    var files: map<(string, string), Bytes>
    /** The commands sent, in order. */
    ghost var sent: seq<Command>

    constructor(uploadPath: string, dirs: set<string>, denied: set<string>, files: map<(string, string), Bytes>)
      ensures this.uploadPath == uploadPath && this.dirs == dirs && this.denied == denied && this.files == files
      ensures ftp == None && sent == []
    {
      this.uploadPath := uploadPath;
      this.dirs := dirs;
      this.denied := denied;
      this.files := files;
      ftp := None;
      sent := [];
    }

    /** `_create_directory_recursive`: walks the cumulative prefixes of the
        path; each one it cannot enter it tries to create, and a failed
        creation does not stop the walk. */
    method CreateDirectoryRecursive(path: string)
      requires ftp.Some?
      modifies this
      ensures ftp.Some? && ftp.value.cwd == WalkCwd(DirectoriesOf(path), old(dirs), old(ftp.value.cwd))
      ensures sent == old(sent) + WalkCommands(DirectoriesOf(path), old(dirs))
      ensures dirs == old(dirs) + Creatable(DirectoriesOf(path), denied)
      ensures files == old(files)
    {
      var cwd, d, cs := Walk(Split(Strip(path)), dirs, ftp.value.cwd, denied);
      ftp := Some(Session(cwd));
      dirs := d;
      sent := sent + cs;
    }

    /** `_connect`: log in and change into the upload directory, creating
        it when it is missing. On any failure the connection is dropped. */
    method Connect(reachable: bool) returns (ok: bool)
      modifies this
      ensures files == old(files)
      ensures ok <==> ftp.Some?
      ensures ok ==> ftp == Some(Session(uploadPath))
      ensures dirs == ConnectedDirs(uploadPath, old(dirs), denied, reachable)
      ensures ok <==> ConnectSucceeds(uploadPath, old(dirs), denied, reachable)
      ensures sent == old(sent) + ConnectCommands(uploadPath, old(dirs), reachable)
    {
      if !reachable {
        ftp := None;
        return false;
      }
      ftp := Some(Session("/"));
      sent := sent + [Cwd(uploadPath)];
      if uploadPath in dirs {
        ftp := Some(Session(uploadPath));
        return true;
      }
      ok := CreateAndEnter();
      Regroup(old(sent), [Cwd(uploadPath)], WalkCommands(DirectoriesOf(uploadPath), old(dirs)), [Cwd(uploadPath)]);
    }

    /** The `except error_perm` branch of `_connect`: create the upload
        directory, then change into it; when that fails the connection is
        dropped. */
    method CreateAndEnter() returns (ok: bool)
      requires ftp.Some? && uploadPath !in dirs
      modifies this
      ensures files == old(files)
      ensures dirs == old(dirs) + Creatable(DirectoriesOf(uploadPath), denied)
      ensures sent == old(sent) + WalkCommands(DirectoriesOf(uploadPath), old(dirs)) + [Cwd(uploadPath)]
      ensures ok <==> uploadPath in dirs
      ensures ok ==> ftp == Some(Session(uploadPath))
      ensures !ok ==> ftp == None
    {
      CreateDirectoryRecursive(uploadPath);
      sent := sent + [Cwd(uploadPath)];
      if uploadPath in dirs {
        ftp := Some(Session(uploadPath));
        return true;
      }
      ftp := None;
      ok := false;
    }

    /** `_disconnect`. */
    method Disconnect()
      modifies this
      ensures ftp == None
      ensures dirs == old(dirs) && files == old(files)
      ensures sent == old(sent) + (if old(ftp).Some? then [Quit] else [])
    {
      if ftp.Some? {
        sent := sent + [Quit];
      }
      ftp := None;
    }

    /** `upload_file`: stores the content as `remote_filename` in the upload
        directory. */
    method UploadFile(content: Bytes, remoteName: string, reachable: bool, stored: bool) returns (ok: bool)
      modifies this
      ensures ftp == None
      ensures ok ==> files == old(files)[(uploadPath, remoteName) := content]
      ensures !ok ==> files == old(files)
      ensures dirs == ConnectedDirs(uploadPath, old(dirs), denied, reachable)
      ensures ok <==> ConnectSucceeds(uploadPath, old(dirs), denied, reachable) && stored
      ensures sent == old(sent) + ConnectCommands(uploadPath, old(dirs), reachable) +
                     (if ConnectSucceeds(uploadPath, old(dirs), denied, reachable) then [Stor(uploadPath, remoteName), Quit] else [])
    {
      var connected := Connect(reachable);
      if !connected {
        return false;
      }
      sent := sent + [Stor(ftp.value.cwd, remoteName)];
      if stored {
        files := files[(ftp.value.cwd, remoteName) := content];
        ok := true;
      } else {
        ok := false;
      }
      Disconnect();
      Regroup(old(sent) + ConnectCommands(uploadPath, old(dirs), reachable), [Stor(uploadPath, remoteName)], [Quit], []);
    }

    /** `file_exists`: whether the name is in the listing of the upload
        directory. */
    method FileExists(remoteName: string, reachable: bool, listed: bool) returns (exists_: bool)
      modifies this
      ensures ftp == None
      ensures files == old(files)
      ensures dirs == ConnectedDirs(uploadPath, old(dirs), denied, reachable)
      ensures exists_ <==> ConnectSucceeds(uploadPath, old(dirs), denied, reachable) && listed &&
                           (uploadPath, remoteName) in old(files)
      ensures sent == old(sent) + ConnectCommands(uploadPath, old(dirs), reachable) +
                     (if ConnectSucceeds(uploadPath, old(dirs), denied, reachable) then [Nlst(uploadPath), Quit] else [])
    {
      var connected := Connect(reachable);
      if !connected {
        return false;
      }
      sent := sent + [Nlst(ftp.value.cwd)];
      if listed {
        exists_ := (ftp.value.cwd, remoteName) in files;
      } else {
        exists_ := false;
      }
      Disconnect();
      Regroup(old(sent) + ConnectCommands(uploadPath, old(dirs), reachable), [Nlst(uploadPath)], [Quit], []);
    }

    /** `delete_file`: removes the file from the upload directory; deleting
        a missing file is an error of the server. */
    method DeleteFile(remoteName: string, reachable: bool) returns (ok: bool)
      modifies this
      ensures ftp == None
      ensures dirs == ConnectedDirs(uploadPath, old(dirs), denied, reachable)
      ensures ok <==> ConnectSucceeds(uploadPath, old(dirs), denied, reachable) &&
                      (uploadPath, remoteName) in old(files)
      ensures files == if ok then old(files) - {(uploadPath, remoteName)} else old(files)
      ensures sent == old(sent) + ConnectCommands(uploadPath, old(dirs), reachable) +
                     (if ConnectSucceeds(uploadPath, old(dirs), denied, reachable) then [Dele(uploadPath, remoteName), Quit] else [])
    {
      var connected := Connect(reachable);
      if !connected {
        return false;
      }
      sent := sent + [Dele(ftp.value.cwd, remoteName)];
      if (ftp.value.cwd, remoteName) in files {
        files := files - {(ftp.value.cwd, remoteName)};
        ok := true;
      } else {
        ok := false;
      }
      Disconnect();
      Regroup(old(sent) + ConnectCommands(uploadPath, old(dirs), reachable), [Dele(uploadPath, remoteName)], [Quit], []);
    }

    /** `test_connection`. */
    method TestConnection(reachable: bool) returns (ok: bool)
      modifies this
      ensures ftp == None
      ensures files == old(files)
      ensures dirs == ConnectedDirs(uploadPath, old(dirs), denied, reachable)
      ensures ok <==> ConnectSucceeds(uploadPath, old(dirs), denied, reachable)
      ensures sent == old(sent) + ConnectCommands(uploadPath, old(dirs), reachable) +
                     (if ConnectSucceeds(uploadPath, old(dirs), denied, reachable) then [Quit] else [])
    {
      ok := Connect(reachable);
      Disconnect();
    }
  }

  /** One step of the walk in terms of the whole walk. */
  lemma WalkStep(ps: seq<string>, i: nat, dirs: set<string>, cwd: string, denied: set<string>)
    requires i < |ps|
    ensures Creatable(ps[..i + 1], denied) == Creatable(ps[..i], denied) + (if ps[i] in denied then {} else {ps[i]})
    ensures WalkCommands(ps[..i + 1], dirs) ==
              WalkCommands(ps[..i], dirs) + [Cwd(ps[i])] + (if ps[i] in dirs then [] else [Mkd(ps[i])])
    ensures WalkCwd(ps[..i + 1], dirs, cwd) == if ps[i] in dirs then ps[i] else WalkCwd(ps[..i], dirs, cwd)
  {
    WalkCommandsSnoc(ps[..i], ps[i], dirs);
    assert ps[..i] + [ps[i]] == ps[..i + 1];
    assert ps[..i + 1][..i] == ps[..i];
  }

  /** The loop's `current_path` after `i + 1` parts is the `i`-th prefix,
      and no earlier prefix was this one. */
  lemma NextPrefix(parts: seq<string>, i: nat, current: string)
    requires i < |parts|
    requires current == PathOf(parts[..i]) + "/" + parts[i]
    ensures current == PathOf(parts[..i + 1]) == Prefixes(parts)[i]
    ensures current !in Prefixes(parts)[..i]
  {
    PrefixesAt(parts, i);
    assert parts[..i + 1][..i] == parts[..i];
    PrefixIsNew(parts, i);
  }

  lemma {:induction false} WalkCommandsSnoc(ps: seq<string>, p: string, dirs: set<string>)
    ensures WalkCommands(ps + [p], dirs) == WalkCommands(ps, dirs) + [Cwd(p)] + (if p in dirs then [] else [Mkd(p)])
    decreases |ps|
  {
    if ps == [] {
      assert WalkCommands([p], dirs) == [Cwd(p)] + (if p in dirs then [] else [Mkd(p)]) + WalkCommands([], dirs);
    } else {
      assert (ps + [p])[1..] == ps[1..] + [p];
      WalkCommandsSnoc(ps[1..], p, dirs);
    }
  }


}
