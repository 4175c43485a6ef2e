/** Receiving an uploaded file: copy to a temporary path, verify, replace the destination
    (client/upload.go, share/files). Any file operation may fail at any time. */
module Upload {
  import opened Text

  type Path = string

  datatype File = File(content: string, mode: nat, uid: nat, gid: nat)

  type Disk = map<Path, File>

  function Get(d: Disk, p: Path): Option<File> {
    if p in d then Some(d[p]) else None
  }

  /** How a file operation goes. A copy that fails may have written some of its bytes. */
  datatype Fault = Fine | Fails(written: nat)

  /** The outcome of the n-th file operation. */
  type Script = nat -> Fault

  /** The bits of a file mode that chmod sets from a plain number: 0777. */
  const PERMISSION_BITS := 512

  /** The user running the client, and the user database. New files belong to this user and group. */
  datatype Env = Env(
    user: string, group: string, uid: nat, gid: nat,
    uidOf: string -> Option<nat>, gidOf: string -> Option<nat>, loginGid: string -> nat)
  {
    ghost predicate Consistent() {
      uidOf(user) == Some(uid) && gidOf(group) == Some(gid)
    }
  }

  /** models.UploadedFile; `mode` is below the bits in which os.FileMode keeps file types. */
  datatype Request = Request(
    source: Path, dest: Path, mode: nat, owner: string, group: string,
    force: bool, sync: bool, md5: string)

  datatype Response = Success(chmodFailed: bool, chownFailed: bool) | Ignored | Error

  // ----- what must hold while the file is replaced -----

  /** One upload: the disk it starts from, its paths, the source bytes and the checksum asked for. */
  datatype Job = Job(start: Disk, temp: Path, dest: Path, source: string, md5: string, hash: string -> string) {

    /** The new bytes, checked against the checksum, are at `p`. */
    ghost predicate Verified(d: Disk, p: Path) {
      p in d && d[p].content == source && hash(source) == md5
    }

    /** At this instant the old file or the verified new bytes are on disk, and no other file changed. */
    ghost predicate Safe(d: Disk) {
      && (Get(d, dest) == Get(start, dest) || Verified(d, temp) || Verified(d, dest))
      && forall p :: p != temp && p != dest ==> Get(d, p) == Get(start, p)
    }

    /** The destination changes only while a verified copy exists. */
    ghost predicate GoodChange(a: Disk, b: Disk) {
      Get(a, dest) != Get(b, dest) ==> Verified(a, temp)
    }

    /** Every instant of a history is safe and every change in it good. */
    ghost predicate SafeThroughout(history: seq<Disk>) {
      && history != [] && history[0] == start
      && (forall k :: 0 <= k < |history| ==> Safe(history[k]))
      && (forall k :: 0 < k < |history| ==> GoodChange(history[k - 1], history[k]))
    }

    /** Nothing was done to the destination yet. */
    ghost predicate Untouched(history: seq<Disk>) {
      && history != [] && history[0] == start
      && forall k :: 0 <= k < |history| ==> SameButTemp(history[k])
    }

    ghost predicate SameButTemp(d: Disk) {
      forall p :: p != temp ==> Get(d, p) == Get(start, p)
    }

    /** What that means on the files: at every instant the destination is as it was, or the source bytes with
        the checksum asked for are at the temporary path or at the destination; it changes only while they are
        at the temporary path; and no other file ever changes. */
    lemma SafetyMeans(history: seq<Disk>, k: nat)
      requires SafeThroughout(history) && k < |history|
      ensures var d := history[k];
              || (dest in d && dest in start && d[dest] == start[dest])
              || (dest !in d && dest !in start)
              || (hash(source) == md5 && temp in d && d[temp].content == source)
              || (hash(source) == md5 && dest in d && d[dest].content == source)
      ensures forall p :: p != temp && p != dest ==>
                            (p in history[k] <==> p in start) && (p in start ==> history[k][p] == start[p])
      ensures k > 0 && (dest in history[k - 1] <==> dest !in history[k]) ==>
                hash(source) == md5 && temp in history[k - 1] && history[k - 1][temp].content == source
      ensures k > 0 && dest in history[k - 1] && dest in history[k] && history[k - 1][dest] != history[k][dest] ==>
                hash(source) == md5 && temp in history[k - 1] && history[k - 1][temp].content == source
    {
      assert Safe(history[k]);
      forall p | p != temp && p != dest
        ensures (p in history[k] <==> p in start) && (p in start ==> history[k][p] == start[p])
      {
        assert Get(history[k], p) == Get(start, p);
      }
      if k > 0 {
        assert GoodChange(history[k - 1], history[k]);
      }
    }

    lemma UntouchedIsSafe(history: seq<Disk>)
      requires Untouched(history) && temp != dest
      ensures SafeThroughout(history)
    {
      assert forall k :: 0 <= k < |history| ==> SameButTemp(history[k]);
    }

    lemma StillUntouched(history: seq<Disk>, d: Disk)
      requires Untouched(history) && SameButTemp(d)
      ensures Untouched(history + [d])
    {
    }

    lemma OneMore(history: seq<Disk>, d: Disk)
      requires SafeThroughout(history) && Safe(d) && GoodChange(history[|history| - 1], d)
      ensures SafeThroughout(history + [d])
    {
    }
  }

  // ----- the file system -----

  class FileSystem {
    var files: Disk
    var calls: nat
    const script: Script
    /** The disk at every instant since `Begin`. */
    ghost var history: seq<Disk>

    constructor (files: Disk, script: Script)
      ensures this.files == files && this.script == script && calls == 0 && history == [files]
    {
      this.files, this.script, calls, history := files, script, 0, [files];
    }

    ghost method Begin()
      modifies this`history
      ensures history == [files]
    {
      history := [files];
    }

    /** No operation from the n-th on fails. */
    ghost predicate FineFrom(n: nat) {
      forall k :: n <= k ==> script(k).Fine?
    }

    /** An operation that only looks, or only makes a directory. */
    method Look() returns (ok: bool)
      modifies this
      ensures files == old(files) && calls == old(calls) + 1 && history == old(history) + [files]
      ensures ok <==> script(old(calls)).Fine?
    {
      ok := script(calls).Fine?;
      calls, history := calls + 1, history + [files];
    }

    method Exist(p: Path) returns (r: Option<bool>)
      modifies this
      ensures files == old(files) && calls == old(calls) + 1 && history == old(history) + [files]
      ensures r == if script(old(calls)).Fine? then Some(p in files) else None
    {
      var ok := Look();
      return if ok then Some(p in files) else None;
    }

    method Remove(p: Path) returns (ok: bool)
      modifies this
      ensures calls == old(calls) + 1 && history == old(history) + [files]
      ensures ok <==> script(old(calls)).Fine? && p in old(files)
      ensures files == if ok then old(files) - {p} else old(files)
    {
      ok := script(calls).Fine? && p in files;
      if ok {
        files := files - {p};
      }
      calls, history := calls + 1, history + [files];
    }

    /** CreateFile opens without truncating and copies; a failure leaves what was written. */
    method CreateFile(p: Path, bytes: string, env: Env, newMode: nat) returns (ok: bool)
      modifies this
      ensures calls == old(calls) + 1 && history == old(history) + [files]
      ensures forall q :: q != p ==> Get(files, q) == Get(old(files), q)
      ensures ok <==> script(old(calls)).Fine?
      ensures ok && p !in old(files) ==> files == old(files)[p := File(bytes, newMode, env.uid, env.gid)]
    {
      ok := script(calls).Fine?;
      var n := if ok then |bytes| else if script(calls).written < |bytes| then script(calls).written else |bytes|;
      if p in files {
        var rest := if n < |files[p].content| then files[p].content[n..] else "";
        files := files[p := files[p].(content := bytes[..n] + rest)];
      } else {
        files := files[p := File(bytes[..n], newMode, env.uid, env.gid)];
      }
      assert bytes[..|bytes|] == bytes;
      calls, history := calls + 1, history + [files];
    }

    /** os.Chmod keeps the permission bits of a plain number and drops the others. */
    method ChangeMode(p: Path, mode: nat) returns (ok: bool)
      modifies this
      ensures calls == old(calls) + 1 && history == old(history) + [files]
      ensures ok <==> script(old(calls)).Fine? && p in old(files)
      ensures files == if ok then old(files)[p := old(files)[p].(mode := mode % PERMISSION_BITS)] else old(files)
    {
      ok := script(calls).Fine? && p in files;
      if ok {
        files := files[p := files[p].(mode := mode % PERMISSION_BITS)];
      }
      calls, history := calls + 1, history + [files];
    }

    /** chown owner:group */
    method ChangeOwner(p: Path, owner: string, group: string, env: Env) returns (ok: bool)
      modifies this
      ensures calls == old(calls) + 1 && history == old(history) + [files]
      ensures ok <==> script(old(calls)).Fine? && p in old(files) && Resolves(env, owner, group)
      ensures ok ==> files == old(files)[p := Owned(old(files)[p], owner, group, env)]
      ensures !ok ==> files == old(files)
    {
      ok := script(calls).Fine? && p in files && Resolves(env, owner, group);
      if ok {
        files := files[p := Owned(files[p], owner, group, env)];
      }
      calls, history := calls + 1, history + [files];
    }

    method Rename(from: Path, to: Path) returns (ok: bool)
      modifies this
      ensures calls == old(calls) + 1 && history == old(history) + [files]
      ensures ok <==> script(old(calls)).Fine? && from in old(files)
      ensures files == if ok then (old(files) - {from})[to := old(files)[from]] else old(files)
    {
      ok := script(calls).Fine? && from in files;
      if ok {
        files := (files - {from})[to := files[from]];
      }
      calls, history := calls + 1, history + [files];
    }
  }

  predicate Resolves(env: Env, owner: string, group: string) {
    (owner != "" ==> env.uidOf(owner).Some?) && (group != "" ==> env.gidOf(group).Some?)
  }

  function Owned(file: File, owner: string, group: string, env: Env): File
    requires Resolves(env, owner, group)
  {
    var uid := if owner == "" then file.uid else env.uidOf(owner).value;
    var gid := if group != "" then env.gidOf(group).value
               else if owner != "" then env.loginGid(owner) else file.gid;
    file.(uid := uid, gid := gid)
  }

  // ----- the manager -----

  /** fileOwnerOrGroupMatch, once the ids are known. */
  predicate OwnerMatches(env: Env, file: File, owner: string, group: string) {
    (owner != "" ==> env.uidOf(owner) == Some(file.uid)) && (group != "" ==> env.gidOf(group) == Some(file.gid))
  }

  /** A destination that a non-forced sync request leaves alone. */
  predicate InSync(env: Env, file: File, req: Request, hash: string -> string) {
    hash(file.content) == req.md5 && (req.mode > 0 ==> file.mode == req.mode) &&
    OwnerMatches(env, file, req.owner, req.group)
  }

  class UploadManager {
    const fs: FileSystem
    const env: Env
    const hash: string -> string
    const newMode: nat

    constructor (fs: FileSystem, env: Env, hash: string -> string, newMode: nat)
      ensures this.fs == fs && this.env == env && this.hash == hash
    {
      this.fs, this.env, this.hash, this.newMode := fs, env, hash, newMode;
    }

    /** The first part of copyFileToTempLocation: make room at the temporary path. */
    method ClearTempLocation(ghost job: Job, temp: Path) returns (ok: bool)
      requires job.temp == temp && job.Untouched(fs.history) && job.start == fs.files
      modifies fs
      ensures job.Untouched(fs.history) && fs.calls >= old(fs.calls)
      ensures ok ==> fs.files == job.start - {temp}
      ensures !ok ==> fs.files == job.start
      ensures fs.FineFrom(old(fs.calls)) ==> ok
    {
      ghost var h := fs.history;
      ok := fs.Look();  // CreateDirIfNotExists
      job.StillUntouched(h, fs.files);
      if !ok {
        return false;
      }
      h := fs.history;
      var tempFileExists := fs.Exist(temp);
      job.StillUntouched(h, fs.files);
      if tempFileExists.None? {
        return false;
      }
      if tempFileExists.value {
        h := fs.history;
        ok := fs.Remove(temp);
        job.StillUntouched(h, fs.files);
        if !ok {
          return false;
        }
      }
      assert temp !in job.start ==> job.start - {temp} == job.start;
      return true;
    }

    /** copyFileToTempLocation: on success a fresh, verified copy is at the temporary path. */
    method CopyFileToTempLocation(ghost job: Job, temp: Path, source: Option<string>, md5: string) returns (ok: bool)
      requires job == Job(fs.files, temp, job.dest, source.GetOr(""), md5, hash) && job.Untouched(fs.history)
      modifies fs
      ensures job.Untouched(fs.history)
      ensures ok ==> fs.history[|fs.history| - 1] == fs.files && job.Verified(fs.files, temp)
      ensures ok ==> source.Some? &&
                     fs.files == (job.start - {temp})[temp := File(source.value, newMode, env.uid, env.gid)]
      ensures fs.calls >= old(fs.calls)
      ensures fs.FineFrom(old(fs.calls)) ==> (ok <==> source.Some? && hash(source.value) == md5)
      ensures fs.FineFrom(old(fs.calls)) && !ok ==> fs.files == old(fs.files) - {temp}
    {
      ok := ClearTempLocation(job, temp);
      if !ok || source.None? {
        return false;
      }
      ghost var h := fs.history;
      ok := fs.CreateFile(temp, source.value, env, newMode);
      job.StillUntouched(h, fs.files);
      if !ok {
        return false;
      }
      h := fs.history;
      ok := fs.Look();  // Md5HashMatch
      job.StillUntouched(h, fs.files);
      if !ok {
        return false;
      }
      if hash(fs.files[temp].content) != md5 {
        h := fs.history;
        var _ := fs.Remove(temp);
        job.StillUntouched(h, fs.files);
        return false;
      }
      return true;
    }

    method ChmodFile(p: Path, mode: nat) returns (ok: bool)
      requires p in fs.files
      modifies fs
      ensures p in fs.files && fs.files[p].content == old(fs.files[p].content)
      ensures fs.files[p].uid == old(fs.files[p].uid) && fs.files[p].gid == old(fs.files[p].gid)
      ensures fs.files == old(fs.files)[p := fs.files[p]]
      ensures fs.history == old(fs.history) || fs.history == old(fs.history) + [fs.files]
      ensures fs.history == old(fs.history) ==> fs.files == old(fs.files)
      ensures ok && mode != 0 ==> fs.files[p].mode == mode % PERMISSION_BITS
      ensures !ok || mode == 0 ==> fs.files == old(fs.files)
      ensures fs.calls >= old(fs.calls) && (fs.FineFrom(old(fs.calls)) ==> ok)
    {
      if mode == 0 {
        return true;
      }
      ok := fs.ChangeMode(p, mode);
    }

    /** ownerOrGroupMatchesCurrentUser */
    predicate MatchesCurrentUser(owner: string, group: string) {
      || (owner != "" && env.user == owner && group == "")
      || (owner == "" && group != "" && env.group == group)
      || (env.user == owner && env.group == group)
    }

    /** Where chownFile takes the current user for the wanted owner, the names are those of its ids. */
    ghost predicate NamesResolve(req: Request) {
      MatchesCurrentUser(req.owner, req.group) ==> env.Consistent()
    }

    /** chownFile: nothing is done when the wanted owner is the current user, which is right for a file
        that this user has just made. */
    method ChownFile(p: Path, owner: string, group: string) returns (ok: bool)
      requires p in fs.files
      modifies fs
      ensures p in fs.files
      ensures fs.files[p].content == old(fs.files[p].content) && fs.files[p].mode == old(fs.files[p].mode)
      ensures fs.files == old(fs.files)[p := fs.files[p]]
      ensures fs.history == old(fs.history) || fs.history == old(fs.history) + [old(fs.files)] ||
              fs.history == old(fs.history) + [old(fs.files), fs.files]
      ensures |fs.history| <= |old(fs.history)| + 1 ==> fs.files == old(fs.files)
      ensures ok && (MatchesCurrentUser(owner, group) ==>
                       env.Consistent() && old(fs.files[p]).uid == env.uid && old(fs.files[p]).gid == env.gid) ==>
                OwnerMatches(env, fs.files[p], owner, group)
      ensures fs.calls >= old(fs.calls)
      ensures fs.FineFrom(old(fs.calls)) ==>
                (owner != "" ==> env.uidOf(owner).Some?) && (group != "" ==> env.gidOf(group).Some?) ==> ok
    {
      if owner == "" && group == "" {
        return true;
      }
      ok := fs.Look();  // GetCurrentUserAndGroup
      if !ok {
        return false;
      }
      if MatchesCurrentUser(owner, group) {
        return true;
      }
      ok := fs.ChangeOwner(p, owner, group, env);
    }

    /** moveFileToDestination */
    method MoveFileToDestination(ghost job: Job, temp: Path, dest: Path) returns (ok: bool)
      requires job.temp == temp && job.dest == dest && temp in fs.files
      requires temp != dest ==> job.SafeThroughout(fs.history) && fs.history[|fs.history| - 1] == fs.files
      requires temp != dest ==> job.Verified(fs.files, temp)
      modifies fs
      ensures temp != dest ==> job.SafeThroughout(fs.history)
      ensures ok ==> temp != dest && fs.files == (old(fs.files) - {temp})[dest := old(fs.files)[temp]]
      ensures fs.FineFrom(old(fs.calls)) ==> (ok <==> temp != dest)
      ensures fs.FineFrom(old(fs.calls)) && !ok ==> fs.files == old(fs.files) - {dest}
    {
      ghost var h0 := fs.history;
      ok := fs.Look();  // prepareDestinationDir
      if temp != dest {
        job.OneMore(h0, fs.files);
      }
      if !ok {
        return false;
      }
      ghost var h1 := fs.history;
      var destinationFileExists := fs.Exist(dest);
      if temp != dest {
        job.OneMore(h1, fs.files);
      }
      if destinationFileExists.None? {
        return false;
      }
      if destinationFileExists.value {
        ghost var h2 := fs.history;
        ok := fs.Remove(dest);
        if temp != dest {
          job.OneMore(h2, fs.files);
        }
        if !ok {
          return false;
        }
      }
      ghost var h3 := fs.history;
      ok := fs.Rename(temp, dest);
      if temp != dest {
        job.OneMore(h3, fs.files);
      }
    }

    /** chmodFile and chownFile on the verified copy; neither failure stops the upload. */
    method SetAttributes(ghost job: Job, temp: Path, req: Request) returns (chmodOk: bool, chownOk: bool)
      requires job.temp == temp && job.Verified(fs.files, temp)
      requires fs.files[temp].uid == env.uid && fs.files[temp].gid == env.gid
      requires temp != job.dest ==> job.SafeThroughout(fs.history) && fs.history[|fs.history| - 1] == fs.files
      modifies fs
      ensures job.Verified(fs.files, temp)
      ensures temp != job.dest ==> job.SafeThroughout(fs.history) && fs.history[|fs.history| - 1] == fs.files
      ensures chmodOk && req.mode != 0 ==> fs.files[temp].mode == req.mode % PERMISSION_BITS
      ensures chownOk && NamesResolve(req) ==> OwnerMatches(env, fs.files[temp], req.owner, req.group)
      ensures fs.calls >= old(fs.calls) && fs.files == old(fs.files)[temp := fs.files[temp]]
      ensures fs.FineFrom(old(fs.calls)) ==> chmodOk && (Resolves(env, req.owner, req.group) ==> chownOk)
    {
      ghost var h := fs.history;
      chmodOk := ChmodFile(temp, req.mode);
      if temp != job.dest && fs.history != h {
        job.OneMore(h, fs.files);
      }
      h := fs.history;
      ghost var d := fs.files;
      chownOk := ChownFile(temp, req.owner, req.group);
      if temp != job.dest && fs.history != h {
        job.OneMore(h, d);
        if |fs.history| > |h| + 1 {
          job.OneMore(h + [d], fs.files);
          assert h + [d] + [fs.files] == h + [d, fs.files];
        }
      }
    }

    /** handleWritingFile */
    method HandleWritingFile(ghost job: Job, temp: Path, req: Request, source: Option<string>) returns (r: Response)
      requires job.Untouched(fs.history)
      requires job == Job(fs.files, temp, req.dest, source.GetOr(""), req.md5, hash)
      modifies fs
      ensures temp != req.dest ==> job.SafeThroughout(fs.history)
      ensures !r.Ignored?
      ensures r.Success? ==> job.Verified(fs.files, req.dest) && source.Some? && temp != req.dest && temp !in fs.files
      ensures r == Success(false, false) && NamesResolve(req) ==>
                && req.dest in fs.files && OwnerMatches(env, fs.files[req.dest], req.owner, req.group)
                && (InSync(env, fs.files[req.dest], req, hash) <==> req.mode < PERMISSION_BITS)
      ensures fs.FineFrom(old(fs.calls)) ==>
                (r.Success? <==> source.Some? && hash(source.value) == req.md5 && temp != req.dest)
      ensures fs.FineFrom(old(fs.calls)) && r.Error? ==> fs.files == old(fs.files) - {temp}
      ensures r.Success? && !r.chmodFailed && req.mode != 0 ==> fs.files[req.dest].mode == req.mode % PERMISSION_BITS
      ensures fs.FineFrom(old(fs.calls)) && r.Success? ==>
                !r.chmodFailed && (Resolves(env, req.owner, req.group) ==> !r.chownFailed)
    {
      var ok := CopyFileToTempLocation(job, temp, source, req.md5);
      if temp != req.dest {
        job.UntouchedIsSafe(fs.history);
      }
      if !ok {
        return Error;
      }
      var chmodOk, chownOk := SetAttributes(job, temp, req);
      ok := MoveFileToDestination(job, temp, req.dest);
      if !ok {
        return Error;
      }
      return Success(!chmodOk, !chownOk);
    }

    /** fileShouldBeSynched; None is an error. */
    method FileShouldBeSynched(req: Request) returns (r: Option<bool>)
      requires req.dest in fs.files
      modifies fs
      ensures fs.files == old(fs.files)
      ensures forall k :: |old(fs.history)| <= k < |fs.history| ==> fs.history[k] == fs.files
      ensures old(fs.history) <= fs.history
      ensures r.Some? ==> r.value == (req.sync && !InSync(env, fs.files[req.dest], req, hash))
      ensures r == Some(true) ==>
                || hash(fs.files[req.dest].content) != req.md5
                || (req.mode > 0 && fs.files[req.dest].mode != req.mode)
                || (req.owner != "" && env.uidOf(req.owner) != Some(fs.files[req.dest].uid))
                || (req.group != "" && env.gidOf(req.group) != Some(fs.files[req.dest].gid))
      ensures fs.calls >= old(fs.calls)
      ensures fs.FineFrom(old(fs.calls)) && (req.sync ==> Resolves(env, req.owner, req.group)) ==> r.Some?
    {
      if !req.sync {
        return Some(false);
      }
      var file := fs.files[req.dest];
      var ok := fs.Look();  // Md5HashMatch
      if !ok {
        return None;
      }
      if hash(file.content) != req.md5 {
        return Some(true);
      }
      if req.mode > 0 {
        ok := fs.Look();  // GetFileMode
        if !ok {
          return None;
        }
        if file.mode != req.mode {
          return Some(true);
        }
      }
      if req.owner != "" || req.group != "" {
        ok := fs.Look();  // GetFileOwnerAndGroup
        if !ok {
          return None;
        }
        if req.owner != "" {
          var uid := env.uidOf(req.owner);
          if uid.None? {
            return None;
          }
          if file.uid != uid.value {
            return Some(true);
          }
        }
        if req.group != "" {
          var gid := env.gidOf(req.group);
          if gid.None? {
            return None;
          }
          if file.gid != gid.value {
            return Some(true);
          }
        }
      }
      return Some(false);
    }

    /** HandleUploadRequest, after the request was decoded and its destination accepted. `temp` is the
        base name of the source in the upload directory. */
    method HandleUploadRequest(temp: Path, req: Request, source: Option<string>) returns (r: Response, ghost job: Job)
      modifies fs
      ensures job == Job(old(fs.files), temp, req.dest, source.GetOr(""), req.md5, hash)
      // under every pattern of failures, at every instant
      ensures temp != req.dest ==> job.SafeThroughout(fs.history)
      ensures r.Success? ==> job.Verified(fs.files, req.dest) && source.Some? && temp != req.dest && temp !in fs.files
      ensures r.Success? ==> && req.dest in fs.files && source.Some? && fs.files[req.dest].content == source.value
                             && hash(source.value) == req.md5
      ensures r.Success? && !r.chmodFailed && req.mode != 0 ==> fs.files[req.dest].mode == req.mode % PERMISSION_BITS
      // an ignored request has found the file, and for a sync request the file as it is asked for
      ensures r.Ignored? ==> fs.files == old(fs.files) && req.dest in fs.files && !req.force
      ensures r.Ignored? && req.sync ==>
                && hash(fs.files[req.dest].content) == req.md5
                && (req.mode > 0 ==> fs.files[req.dest].mode == req.mode)
                && (req.owner != "" ==> env.uidOf(req.owner) == Some(fs.files[req.dest].uid))
                && (req.group != "" ==> env.gidOf(req.group) == Some(fs.files[req.dest].gid))
      // without failures a complete success is the only one, and one difference is enough for it
      ensures fs.FineFrom(old(fs.calls)) && r.Success? ==>
                (req.owner != "" ==> env.uidOf(req.owner).Some?) && (req.group != "" ==> env.gidOf(req.group).Some?) ==>
                  r == Success(false, false)
      ensures fs.FineFrom(old(fs.calls)) && req.dest in old(fs.files) && !req.force ==>
                var file := old(fs.files)[req.dest];
                (!req.sync || (&& hash(file.content) == req.md5 && (req.mode > 0 ==> file.mode == req.mode)
                               && (req.owner != "" ==> env.uidOf(req.owner) == Some(file.uid))
                               && (req.group != "" ==> env.gidOf(req.group) == Some(file.gid)))) ==>
                  r.Ignored?
      // after a complete success the destination is what a sync request asks for, unless the request
      // asks for mode bits that chmod drops
      ensures r == Success(false, false) && NamesResolve(req) ==>
                && req.dest in fs.files && OwnerMatches(env, fs.files[req.dest], req.owner, req.group)
                && (InSync(env, fs.files[req.dest], req, hash) <==> req.mode < PERMISSION_BITS)
      // and such a destination is left alone
      ensures fs.FineFrom(old(fs.calls)) && Resolves(env, req.owner, req.group) ==>
                (r.Ignored? <==> req.dest in old(fs.files) && !req.force &&
                                 (req.sync ==> InSync(env, old(fs.files)[req.dest], req, hash)))
      // without failures, a file that is not ignored is written exactly when it can be read, has the
      // checksum asked for and is not to be written over its own temporary copy
      ensures fs.FineFrom(old(fs.calls)) && Resolves(env, req.owner, req.group) ==>
                (r.Success? <==> !r.Ignored? && source.Some? && hash(source.value) == req.md5 && temp != req.dest)
      // a temporary path equal to the destination loses the old file
      ensures fs.FineFrom(old(fs.calls)) && Resolves(env, req.owner, req.group) && r.Error? ==>
                fs.files == old(fs.files) - {temp}
      ensures fs.FineFrom(old(fs.calls)) && Resolves(env, req.owner, req.group) && r.Error? && temp in old(fs.files) ==>
                (req.dest in old(fs.files) && req.dest !in fs.files <==> temp == req.dest)
    {
      job := Job(fs.files, temp, req.dest, source.GetOr(""), req.md5, hash);
      fs.Begin();
      var destinationFileExists := fs.Exist(req.dest);
      if temp != req.dest {
        job.UntouchedIsSafe(fs.history);
      }
      if destinationFileExists.None? {
        return Error, job;
      }
      if !destinationFileExists.value || req.force {
        r := HandleWritingFile(job, temp, req, source);
        return r, job;
      }
      var fileShouldBeSynched := FileShouldBeSynched(req);
      if temp != req.dest {
        job.UntouchedIsSafe(fs.history);
      }
      if fileShouldBeSynched.None? {
        return Error, job;
      }
      if fileShouldBeSynched.value {
        r := HandleWritingFile(job, temp, req, source);
        return r, job;
      }
      return Ignored, job;
    }

    /** Sync uploads are idempotent: after a success with mode and owner set, the same request is ignored and
        changes no file, exactly when it asks for permission bits only. */
    method SyncTwice(temp: Path, req: Request, source: Option<string>)
      returns (first: Response, second: Response, ghost between: Disk, ghost callsBetween: nat)
      requires !req.force && req.sync
      modifies fs
      ensures first == Success(false, false) && fs.FineFrom(callsBetween) && NamesResolve(req) ==>
                (second == Ignored <==> req.mode < PERMISSION_BITS)
      ensures second == Ignored ==> fs.files == between
    {
      ghost var job;
      first, job := HandleUploadRequest(temp, req, source);
      between, callsBetween := fs.files, fs.calls;
      second, job := HandleUploadRequest(temp, req, source);
    }
  }
}
