/** Client credentials in a JSON file with a cache in front (server/clientsauth/file.go). */
module ClientAuth {
  import opened Text

  datatype Credential = Credential(id: string, password: string)

  /** The file: the pairs it holds, or None when it cannot be read or decoded. */
  type Contents = Option<map<string, string>>

  /** How a save goes: written, not opened at all, or truncated and not completely written. */
  datatype Write = Written | NotOpened | Torn

  datatype Op =
    | DoGet(id: string, loads: bool)
    | DoAdd(auth: Credential, loads: bool, write: Write)
    | DoDelete(id: string, loads: bool, write: Write)
    | Expire(id: string)

  /** The file and the cache; a cached password is under its id. */
  datatype Files = Files(file: Contents, cache: map<string, string>) {

    /** Every cached credential is the one in the file. */
    ghost predicate Coherent() {
      forall id :: id in cache ==> file.Some? && id in file.value && file.value[id] == cache[id]
    }

    function Write(pairs: map<string, string>, write: Write): Files {
      match write
      case Written => this.(file := Some(pairs))
      case NotOpened => this
      case Torn => this.(file := None)
    }

    function Step(op: Op): Files {
      match op
      case DoGet(id, loads) =>
        if id !in cache && loads && file.Some? && id in file.value then this.(cache := cache[id := file.value[id]])
        else this
      case DoAdd(auth, loads, write) =>
        if loads && file.Some? && auth.id !in file.value then Write(file.value[auth.id := auth.password], write)
        else this
      case DoDelete(id, loads, write) =>
        if loads && file.Some? then this.(cache := cache - {id}).Write(file.value - {id}, write) else this
      case Expire(id) => this.(cache := cache - {id})
    }

    function Lookup(id: string): Option<Credential> {
      if file.Some? && id in file.value then Some(Credential(id, file.value[id])) else None
    }
  }

  datatype Result<+T> = Ok(value: T) | Err

  class FileProvider {
    var file: Contents
    var cache: map<string, string>

    ghost function State(): Files
      reads this
    {
      Files(file, cache)
    }

    constructor (file: Contents)
      ensures State() == Files(file, map[]) && State().Coherent()
    {
      this.file, cache := file, map[];
    }

    /** load; `loads` is false when the file cannot be read this time. */
    method Load(loads: bool) returns (r: Result<map<string, string>>)
      ensures r == if loads && file.Some? then Ok(file.value) else Err
    {
      if loads && file.Some? {
        return Ok(file.value);
      }
      return Err;
    }

    method Save(pairs: map<string, string>, write: Write) returns (ok: bool)
      modifies this`file
      ensures State() == old(State()).Write(pairs, write) && ok == write.Written?
    {
      match write
      case Written => file := Some(pairs); return true;
      case NotOpened => return false;
      case Torn => file := None; return false;
    }

    method Get(id: string, loads: bool) returns (r: Result<Option<Credential>>)
      modifies this`cache
      ensures State() == old(State()).Step(DoGet(id, loads))
      ensures old(State()).Coherent() && r.Ok? ==> r.value == State().Lookup(id)
      ensures r.Err? <==> id !in old(cache) && !(loads && file.Some?)
      // what is in the file is found and cached, what is not is not
      ensures id !in old(cache) && r.Ok? ==>
                && (id in file.value ==> r.value == Some(Credential(id, file.value[id])) &&
                                         cache == old(cache)[id := file.value[id]])
                && (id !in file.value ==> r.value == None && cache == old(cache))
      ensures id in old(cache) ==> r == Ok(Some(Credential(id, old(cache)[id]))) && cache == old(cache)
    {
      if id in cache {
        return Ok(Some(Credential(id, cache[id])));
      }
      var pairs := Load(loads);
      if pairs.Err? {
        return Err;
      }
      if id in pairs.value {
        cache := cache[id := pairs.value[id]];
        return Ok(Some(Credential(id, pairs.value[id])));
      }
      return Ok(None);
    }

    method Add(auth: Credential, loads: bool, write: Write) returns (r: Result<bool>)
      modifies this`file
      ensures State() == old(State()).Step(DoAdd(auth, loads, write))
      ensures r == Ok(true) ==> old(State()).Lookup(auth.id).None? && State().Lookup(auth.id) == Some(auth)
      ensures r == Ok(false) ==> old(State()).Lookup(auth.id).Some? && file == old(file)
      ensures r != Ok(true) && write != Torn ==> file == old(file)
      ensures r == Ok(true) <==> loads && old(file).Some? && auth.id !in old(file).value && write.Written?
      ensures r == Ok(false) <==> loads && old(file).Some? && auth.id in old(file).value
      ensures r == Ok(true) ==> file == Some(old(file).value[auth.id := auth.password])
    {
      var pairs := Load(loads);
      if pairs.Err? {
        return Err;
      }
      if auth.id in pairs.value {
        return Ok(false);
      }
      var ok := Save(pairs.value[auth.id := auth.password], write);
      return if ok then Ok(true) else Err;
    }

    method Delete(id: string, loads: bool, write: Write) returns (ok: bool)
      modifies this
      ensures State() == old(State()).Step(DoDelete(id, loads, write))
      ensures ok ==> State().Lookup(id).None? && id !in cache
      ensures ok <==> loads && old(file).Some? && write.Written?
      ensures ok ==> file == Some(old(file).value - {id}) && cache == old(cache) - {id}
    {
      var pairs := Load(loads);
      if pairs.Err? {
        return false;
      }
      cache := cache - {id};
      ok := Save(pairs.value - {id}, write);
    }
  }

  function Run(s: Files, ops: seq<Op>): Files {
    if ops == [] then s else Run(s, ops[..|ops| - 1]).Step(ops[|ops| - 1])
  }

  /** The operation tears the file while another credential is cached. */
  predicate Tears(s: Files, op: Op) {
    || (op.DoAdd? && op.write.Torn? && op.loads && s.file.Some? && op.auth.id !in s.file.value && s.cache != map[])
    || (op.DoDelete? && op.write.Torn? && op.loads && s.file.Some? && s.cache - {op.id} != map[])
  }

  /** A step keeps cache and file in agreement exactly when it does not tear the file under the cache. */
  lemma StepIsCoherent(s: Files, op: Op)
    requires s.Coherent()
    ensures s.Step(op).Coherent() <==> !Tears(s, op)
  {
    if Tears(s, op) {
      var left := if op.DoDelete? then s.cache - {op.id} else s.cache;
      var id :| id in left;
      assert id in s.Step(op).cache;
    } else if op.DoDelete? && op.write.Torn? && op.loads && s.file.Some? {
      assert s.Step(op).cache == map[];
    }
  }

  ghost predicate CoherentAt(s: Files, ops: seq<Op>, k: nat)
    requires k <= |ops|
  {
    Run(s, ops[..k]).Coherent()
  }

  ghost predicate TearsAt(s: Files, ops: seq<Op>, k: nat)
    requires k < |ops|
  {
    Tears(Run(s, ops[..k]), ops[k])
  }

  lemma OneMoreCoherent(s: Files, ops: seq<Op>, k: nat)
    requires k < |ops| && CoherentAt(s, ops, k)
    ensures CoherentAt(s, ops, k + 1) <==> !TearsAt(s, ops, k)
  {
    assert ops[..k + 1][..k] == ops[..k];
    StepIsCoherent(Run(s, ops[..k]), ops[k]);
  }

  lemma {:induction false} UntornIsCoherent(s: Files, ops: seq<Op>, k: nat)
    requires s.Coherent() && k <= |ops| && forall j :: 0 <= j < k ==> !TearsAt(s, ops, j)
    ensures CoherentAt(s, ops, k)
    decreases k
  {
    if k == 0 {
    } else {
      UntornIsCoherent(s, ops, k - 1);
      OneMoreCoherent(s, ops, k - 1);
    }
  }

  /** Over every run of Get, Add, Delete and expiry: every cached credential is the one in the file all the time
      if and only if no operation tears the file under the cache. */
  lemma CacheIsCoherent(s: Files, ops: seq<Op>)
    requires s.Coherent()
    ensures (forall k :: 0 <= k <= |ops| ==> CoherentAt(s, ops, k)) <==>
            (forall k :: 0 <= k < |ops| ==> !TearsAt(s, ops, k))
  {
    if forall k :: 0 <= k <= |ops| ==> CoherentAt(s, ops, k) {
      forall k | 0 <= k < |ops| ensures !TearsAt(s, ops, k) {
        assert CoherentAt(s, ops, k + 1);
        OneMoreCoherent(s, ops, k);
      }
    } else if forall k :: 0 <= k < |ops| ==> !TearsAt(s, ops, k) {
      forall k | 0 <= k <= |ops| ensures CoherentAt(s, ops, k) {
        UntornIsCoherent(s, ops, k);
      }
    }
  }

  /** A credential is read and cached; then adding another one breaks off half way. */
  function TornRun(cached: Credential, added: Credential): seq<Op> {
    [DoGet(cached.id, true), DoAdd(added, true, Torn)]
  }

  /** Whatever the credentials, the cached one is then in no readable file. */
  lemma TornRunIsIncoherent(cached: Credential, added: Credential)
    requires cached.id != added.id
    ensures var s := Run(Files(Some(map[cached.id := cached.password]), map[]), TornRun(cached, added));
            s.file.None? && cached.id in s.cache && !s.Coherent()
  {
    var s, ops := Files(Some(map[cached.id := cached.password]), map[]), TornRun(cached, added);
    assert ops[..1][..0] == [] && ops[..1][0] == ops[0];
    assert Run(s, ops[..1]) == s.(cache := map[cached.id := cached.password]);
    assert Run(s, ops).file.None? && cached.id in Run(s, ops).cache;
  }

  /** Add never changes an existing password, in any run without deletions of that id. */
  lemma {:induction false} AddKeepsPassword(s: Files, id: string, ops: seq<Op>)
    requires s.file.Some? && id in s.file.value
    requires forall k :: 0 <= k < |ops| ==> !(ops[k].DoDelete? && ops[k].id == id)
    ensures var t := Run(s, ops); t.file.Some? ==> id in t.file.value && t.file.value[id] == s.file.value[id]
    decreases |ops|
  {
    if ops == [] {
    } else {
      AddKeepsPassword(s, id, ops[..|ops| - 1]);
    }
  }
}
