/** The vault: an init/lock/unlock state machine over an encrypted table (server/vault). */
module Vault {
  import opened Text

  // ----- an ideal authenticated cipher -----

  /** A ciphertext. Only the functions below look into it. */
  datatype Sealed = Sealed(key: string, nonce: nat, payload: string)

  function Encrypt(payload: string, password: string, nonce: nat): Sealed {
    Sealed(password, nonce, payload)
  }

  function Decrypt(c: Sealed, password: string): Option<string> {
    if c.key == password then Some(c.payload) else None
  }

  // ----- data -----

  const DB_STATUS_INIT := "setup-completed"
  const DB_STATUS_NOT_INIT := "uninitialized"
  const MIN_PASS_LENGTH := 4
  const MAX_PASS_LENGTH := 32
  const VALUE_TYPES: set<string> := {"text", "secret", "markdown", "string"}

  datatype Status = Status(name: string, encCheck: Option<Sealed>)

  datatype Input = Input(clientID: string, requiredGroup: string, key: string, value: string, kind: string)

  /** A row of the values table, with an encrypted or a plain value. */
  datatype Row<V> = Row(clientID: string, requiredGroup: string, key: string, value: V, kind: string,
                        createdBy: string, updatedBy: string)
  {
    function With<W>(v: W): Row<W> {
      Row(clientID, requiredGroup, key, v, kind, createdBy, updatedBy)
    }
  }

  datatype User = User(name: string, groups: seq<string>)

  datatype Error =
    | PassTooShort | PassTooLong | AlreadyInitialized | NotInitialized | AlreadyUnlocked | AlreadyLocked
    | VaultLocked | WrongPassword | NoCheckValue | InvalidInput | NotFound | Forbidden | KeyTaken
    | Broken  // a database call or the random source failed

  datatype Result<+T> = Ok(value: T) | Err(error: Error)

  /** How a call into the database goes: well, failing without effect, or failing after its effect. */
  datatype Outcome = Fine | Fails | FailsLate

  /** The outcome of the n-th fallible call of an operation. */
  type Faults = nat -> Outcome

  ghost predicate NoFaults(f: Faults) {
    forall n :: f(n) == Fine
  }

  predicate ValidPass(pass: string) {
    MIN_PASS_LENGTH <= |pass| <= MAX_PASS_LENGTH
  }

  /** Validate(valueToStore) */
  predicate ValidInput(input: Input) {
    input.key != "" && input.value != "" && input.kind in VALUE_TYPES
  }

  /** checkGroupAccess */
  predicate MayAccess(requiredGroup: string, user: User) {
    requiredGroup == "" || requiredGroup in user.groups
  }

  // ----- the plain vault that the encrypted one implements -----

  datatype Op =
    | DoInit(pass: string)
    | DoUnlock(pass: string)
    | DoLock
    | DoStore(existingID: int, input: Input, user: User)
    | DoDelete(id: int, user: User)
    | DoRestart

  /** A vault without encryption: the password it was initialised with, whether it is open, and its
      values in the clear. */
  datatype Plain = Plain(secret: Option<string>, unlocked: bool, rows: map<int, Row<string>>, nextID: int) {

    predicate Open() {
      secret.Some? && unlocked
    }

    /** Another row has this key for this client. */
    predicate Taken(existingID: int, input: Input) {
      exists id :: id in rows && id != existingID && rows[id].key == input.key && rows[id].clientID == input.clientID
    }

    predicate MayStore(existingID: int, input: Input, user: User) {
      && Open() && ValidInput(input) && !Taken(existingID, input)
      && (existingID > 0 ==> existingID in rows && MayAccess(rows[existingID].requiredGroup, user))
    }

    function Stored(existingID: int, input: Input, user: User): Plain {
      if existingID == 0 then
        this.(rows := rows[nextID := Inserted(input, user)], nextID := nextID + 1)
      else if existingID in rows then
        this.(rows := rows[existingID := Updated(rows[existingID], input, user)])
      else this
    }

    /** What an operation does when it succeeds; an operation that is refused does nothing. */
    function Apply(op: Op): Plain {
      match op
      case DoInit(pass) =>
        if ValidPass(pass) && secret.None? then this.(secret := Some(pass), unlocked := true) else this
      case DoUnlock(pass) => if secret == Some(pass) then this.(unlocked := true) else this
      case DoLock => this.(unlocked := false)
      case DoStore(id, input, user) => if MayStore(id, input, user) then Stored(id, input, user) else this
      case DoDelete(id, user) =>
        if Open() && id in rows && MayAccess(rows[id].requiredGroup, user) then this.(rows := rows - {id})
        else this
      case DoRestart => this.(unlocked := false)
    }

    /** No two values share a key and a client. */
    ghost predicate UniqueKeys() {
      forall a, b :: a in rows && b in rows && rows[a].key == rows[b].key && rows[a].clientID == rows[b].clientID ==>
                       a == b
    }

    ghost predicate Valid() {
      && UniqueKeys() && nextID > 0 && (forall id :: id in rows ==> 0 < id < nextID)
      && (unlocked || rows != map[] ==> secret.Some?) && (secret.Some? ==> secret.value != "")
    }
  }

  function Inserted(input: Input, user: User): Row<string> {
    Row(input.clientID, input.requiredGroup, input.key, input.value, input.kind, user.name, user.name)
  }

  function Updated(was: Row<string>, input: Input, user: User): Row<string> {
    Row(input.clientID, input.requiredGroup, input.key, input.value, input.kind, was.createdBy, user.name)
  }

  const NEW_VAULT := Plain(None, false, map[], 1)

  // ----- the manager -----

  class Manager {
    /** Manager.pass */
    var pass: string
    /** StatefulDbProviderFactory.initDBProvider is set. */
    var dbOpen: bool
    /** The server is up; a failed start leaves it down. */
    var running: bool

    // the database file
    var fileExists: bool
    var status: Option<Status>
    var values: map<int, Row<Sealed>>
    var nextID: int

    ghost predicate Initialized()
      reads this
    {
      status.Some? && status.value.name == DB_STATUS_INIT
    }

    /** An unlocked vault is initialised and holds the password of Init, and every stored value was
        encrypted with that password. */
    ghost predicate Valid()
      reads this
    {
      && (status.Some? ==> status.value.name == DB_STATUS_INIT && status.value.encCheck.Some? && fileExists)
      && (running && fileExists && status.Some? ==> dbOpen)
      && (pass != "" ==> running && status.Some? && pass == status.value.encCheck.value.key)
      && (status.Some? ==> status.value.encCheck.value.key != "")
      && (values != map[] ==> status.Some?)
      && (forall id :: id in values ==> status.Some? && values[id].value.key == status.value.encCheck.value.key)
      && Abs().Valid()
    }

    /** The plain vault this one stands for. */
    ghost function Abs(): Plain
      reads this
    {
      Plain(if status.Some? && status.value.encCheck.Some? then Some(status.value.encCheck.value.key) else None,
            pass != "",
            Opened(values),
            nextID)
    }

    constructor ()
      ensures Valid() && running && Abs() == NEW_VAULT
    {
      pass, dbOpen, running, fileExists, status, values, nextID := "", false, true, false, None, map[], 1;
    }

    /** GetStatus of the provider in use; NotInitialized is ErrDatabaseNotInitialised. */
    method GetStatus(o: Outcome) returns (r: Result<Option<Status>>)
      ensures r == if !dbOpen then Err(NotInitialized) else if o != Fine then Err(Broken) else Ok(status)
    {
      if !dbOpen {
        return Err(NotInitialized);
      }
      if o != Fine {
        return Err(Broken);
      }
      return Ok(status);
    }

    method IsDatabaseInitialized(o: Outcome) returns (r: Result<bool>)
      requires Valid() && running
      ensures r.Ok? ==> r.value == Initialized()
      ensures r.Err? ==> r.error == Broken && o != Fine
    {
      var dbStatus := GetStatus(o);
      if dbStatus.Err? {
        if dbStatus.error == NotInitialized {
          return Ok(false);
        }
        return Err(dbStatus.error);
      }
      return Ok(dbStatus.value.Some? && dbStatus.value.value.name == DB_STATUS_INIT);
    }

    method Init(newPass: string, nonce: nat, random: string, f: Faults) returns (r: Result<()>)
      requires Valid() && running
      modifies this
      ensures Valid() && running
      ensures r.Ok? ==> old(Abs()).secret.None? && ValidPass(newPass) && Abs() == old(Abs()).Apply(DoInit(newPass))
      ensures r.Ok? ==> 4 <= |newPass| <= 32 && Abs() == old(Abs()).(secret := Some(newPass), unlocked := true)
      ensures r.Err? ==> Abs() == old(Abs()) ||
                         (f(3) == FailsLate && Abs() == old(Abs()).Apply(DoInit(newPass)).Apply(DoLock))
      ensures NoFaults(f) ==> (r.Ok? <==> old(Abs()).secret.None? && 4 <= |newPass| <= 32)
    {
      if |newPass| < MIN_PASS_LENGTH {
        return Err(PassTooShort);
      }
      if |newPass| > MAX_PASS_LENGTH {
        return Err(PassTooLong);
      }
      var isInit := IsDatabaseInitialized(f(0));
      if isInit.Err? {
        return Err(isInit.error);
      }
      if isInit.value {
        return Err(AlreadyInitialized);
      }
      // StatefulDbProviderFactory.Init: the file may be left behind by a failure
      if f(1) != Fails {
        fileExists := true;
      }
      if f(1) != Fine {
        return Err(Broken);
      }
      dbOpen := true;
      if f(2) != Fine {
        return Err(Broken);
      }
      var check := Encrypt(random, newPass, nonce);
      if f(3) != Fails {
        status := Some(Status(DB_STATUS_INIT, Some(check)));
      }
      if f(3) != Fine {
        return Err(Broken);
      }
      pass := newPass;
      return Ok(());
    }

    /** Aes256PassManager.PassMatch */
    method PassMatch(dbStatus: Status, passToCheck: string) returns (r: Result<bool>)
      ensures r == if passToCheck == "" then Ok(false)
                   else if dbStatus.encCheck.None? then Err(NoCheckValue)
                   else Ok(dbStatus.encCheck.value.key == passToCheck)
    {
      if passToCheck == "" {
        return Ok(false);
      }
      if dbStatus.encCheck.None? {
        return Err(NoCheckValue);
      }
      return Ok(Decrypt(dbStatus.encCheck.value, passToCheck).Some?);
    }

    method Unlock(tried: string, f: Faults) returns (r: Result<()>)
      requires Valid() && running
      modifies this`pass
      ensures Valid()
      ensures r.Ok? ==> !old(Abs()).unlocked && old(Abs()).secret == Some(tried) &&
                        Abs() == old(Abs()).Apply(DoUnlock(tried))
      ensures r.Ok? ==> Abs() == old(Abs()).(unlocked := true)
      ensures r.Err? ==> Abs() == old(Abs())
      ensures NoFaults(f) ==> (r.Ok? <==> !old(Abs()).unlocked && old(Abs()).secret == Some(tried))
    {
      if pass != "" {
        return Err(AlreadyUnlocked);
      }
      var dbStatus := GetStatus(f(0));
      if dbStatus.Err? {
        return Err(dbStatus.error);
      }
      if dbStatus.value.None? || dbStatus.value.value.name == "" || dbStatus.value.value.name == DB_STATUS_NOT_INIT {
        return Err(NotInitialized);
      }
      var passMatch := PassMatch(dbStatus.value.value, tried);
      if passMatch.Err? {
        return Err(NoCheckValue);
      }
      if !passMatch.value {
        return Err(WrongPassword);
      }
      pass := tried;
      return Ok(());
    }

    method Lock(f: Faults) returns (r: Result<()>)
      requires Valid() && running
      modifies this`pass
      ensures Valid()
      ensures r.Ok? ==> old(Abs()).unlocked && Abs() == old(Abs()).Apply(DoLock)
      ensures r.Ok? ==> Abs() == old(Abs()).(unlocked := false)
      ensures r.Err? ==> Abs() == old(Abs())
      ensures NoFaults(f) ==> (r.Ok? <==> old(Abs()).unlocked)
    {
      if pass == "" {
        return Err(AlreadyLocked);
      }
      var dbStatus := GetStatus(f(0));
      if dbStatus.Err? {
        return Err(dbStatus.error);
      }
      if dbStatus.value.None? || dbStatus.value.value.name == "" || dbStatus.value.value.name == DB_STATUS_NOT_INIT {
        return Err(NotInitialized);
      }
      pass := "";
      return Ok(());
    }

    method CheckUnlockedAndInitialized(o: Outcome) returns (err: Option<Error>)
      requires Valid() && running
      ensures err.None? ==> Abs().Open() && pass != "" && dbOpen
      ensures err.Some? && o == Fine ==> !Abs().Open()
    {
      if pass == "" {
        return Some(VaultLocked);
      }
      var isInit := IsDatabaseInitialized(o);
      if isInit.Err? {
        return Some(isInit.error);
      }
      if !isInit.value {
        return Some(NotInitialized);
      }
      return None;
    }

    /** GetOne returns the plain row, the one the last Store put there. */
    method GetOne(id: int, user: User, f: Faults) returns (r: Result<Option<Row<string>>>)
      requires Valid() && running
      ensures r.Ok? ==> Abs().Open()
      ensures r.Ok? && r.value.Some? ==> id in Abs().rows && r.value.value == Abs().rows[id]
      ensures r.Ok? && r.value.None? ==> id !in Abs().rows
      ensures r.Ok? ==> Abs().secret.Some? && Abs().unlocked
      ensures r.Ok? && id in Abs().rows ==>
                Abs().rows[id].requiredGroup == "" || Abs().rows[id].requiredGroup in user.groups
      ensures NoFaults(f) && Abs().secret.Some? && Abs().unlocked ==>
                (r.Ok? <==> id in Abs().rows ==>
                              Abs().rows[id].requiredGroup == "" || Abs().rows[id].requiredGroup in user.groups)
    {
      var err := CheckUnlockedAndInitialized(f(0));
      if err.Some? {
        return Err(err.value);
      }
      if f(1) != Fine {
        return Err(Broken);
      }
      if id !in values {
        return Ok(None);
      }
      var val := values[id];
      if !MayAccess(val.requiredGroup, user) {
        return Err(Forbidden);
      }
      var decrypted := Decrypt(val.value, pass);
      if decrypted.None? {
        return Err(Broken);
      }
      return Ok(Some(val.With(decrypted.value)));
    }

    /** FindByKeyAndClientID: some row with this key and client. */
    method FindByKeyAndClientID(key: string, clientID: string) returns (found: Option<int>)
      ensures IsHit(values, key, clientID, found)
    {
      if id :| id in values && values[id].key == key && values[id].clientID == clientID {
        return Some(id);
      }
      return None;
    }

    /** Store. An id that is not positive and not zero passes every check and updates no row. */
    method Store(existingID: int, input: Input, user: User, nonce: nat, f: Faults) returns (r: Result<int>)
      requires Valid() && running
      modifies this`values, this`nextID
      ensures Valid()
      ensures r.Ok? ==> old(Abs()).MayStore(existingID, input, user) &&
                        Abs() == old(Abs()).Apply(DoStore(existingID, input, user))
      ensures r.Ok? && existingID == 0 ==>
                && r.value !in old(Abs()).rows
                && Abs().rows == old(Abs()).rows[r.value := Row(input.clientID, input.requiredGroup, input.key,
                                                                input.value, input.kind, user.name, user.name)]
      ensures r.Ok? && existingID > 0 ==>
                && r.value == existingID && existingID in old(Abs()).rows
                && Abs().rows == old(Abs()).rows[existingID := Row(input.clientID, input.requiredGroup, input.key,
                                                                   input.value, input.kind,
                                                                   old(Abs()).rows[existingID].createdBy, user.name)]
                && (old(Abs()).rows[existingID].requiredGroup == "" ||
                    old(Abs()).rows[existingID].requiredGroup in user.groups)
      ensures r.Ok? ==> && Abs().secret == old(Abs()).secret && Abs().unlocked && Abs().secret.Some?
                        && input.key != "" && input.value != ""
                        && input.kind in {"text", "secret", "markdown", "string"}
      ensures r.Ok? ==> forall id :: id in old(Abs()).rows && id != existingID ==>
                                       old(Abs()).rows[id].key != input.key ||
                                       old(Abs()).rows[id].clientID != input.clientID
      ensures r.Ok? && existingID < 0 ==> r.value == existingID && Abs() == old(Abs())
      ensures r.Err? ==> Abs() == old(Abs()) ||
                         (f(4) == FailsLate && old(Abs()).MayStore(existingID, input, user) &&
                          Abs() == old(Abs()).Apply(DoStore(existingID, input, user)))
      ensures NoFaults(f) ==> (r.Ok? <==> old(Abs()).MayStore(existingID, input, user))
      ensures NoFaults(f) ==>
                (&& old(Abs()).secret.Some? && old(Abs()).unlocked
                 && input.key != "" && input.value != "" && input.kind in {"text", "secret", "markdown", "string"}
                 && (existingID > 0 ==> && existingID in old(Abs()).rows
                                        && (old(Abs()).rows[existingID].requiredGroup == "" ||
                                            old(Abs()).rows[existingID].requiredGroup in user.groups))
                 && forall id :: id in old(Abs()).rows && id != existingID ==>
                                   old(Abs()).rows[id].key != input.key ||
                                   old(Abs()).rows[id].clientID != input.clientID) ==>
                  r.Ok?
    {
      var err := CheckUnlockedAndInitialized(f(0));
      if err.Some? {
        return Err(err.value);
      }
      if !ValidInput(input) {
        return Err(InvalidInput);
      }
      if f(1) != Fine {
        return Err(Broken);
      }
      var found := FindByKeyAndClientID(input.key, input.clientID);
      TakenIsFound(values, Abs(), existingID, input, found);
      if existingID > 0 {
        if f(2) != Fine {
          return Err(Broken);
        }
        if existingID !in values {
          return Err(NotFound);
        }
        if !MayAccess(values[existingID].requiredGroup, user) {
          return Err(Forbidden);
        }
      }
      if found.Some? && (existingID == 0 || found.value != existingID) {
        return Err(KeyTaken);
      }
      if f(3) != Fine {
        return Err(Broken);
      }
      var encValue := Encrypt(input.value, pass, nonce);
      StoredIsValid(Abs(), existingID, input, user);
      r := SaveValue(existingID, input, encValue, user, f(4));
    }

    /** SqliteProvider.Save: an insert for id 0, else an update, which may hit no row. */
    method SaveValue(idToUpdate: int, input: Input, enc: Sealed, user: User, o: Outcome) returns (r: Result<int>)
      requires enc.payload == input.value
      modifies this`values, this`nextID
      ensures Abs() == if o == Fails then old(Abs()) else old(Abs()).Stored(idToUpdate, input, user)
      ensures forall id :: id in values ==>
                (id in old(values) && values[id] == old(values)[id]) || values[id].value == enc
      ensures r == if o == Fine then Ok(if idToUpdate == 0 then old(nextID) else idToUpdate) else Err(Broken)
    {
      if o == Fails {
        return Err(Broken);
      }
      OpenedUpdate(values, if idToUpdate == 0 then nextID else idToUpdate, input, enc, user);
      r := Ok(if idToUpdate == 0 then nextID else idToUpdate);
      if idToUpdate == 0 {
        values := values[nextID := Row(input.clientID, input.requiredGroup, input.key, enc, input.kind,
                                       user.name, user.name)];
        nextID := nextID + 1;
      } else if idToUpdate in values {
        values := values[idToUpdate := Row(input.clientID, input.requiredGroup, input.key, enc, input.kind,
                                           values[idToUpdate].createdBy, user.name)];
      }
      if o != Fine {
        return Err(Broken);
      }
    }

    method Delete(id: int, user: User, f: Faults) returns (r: Result<()>)
      requires Valid() && running
      modifies this`values
      ensures Valid()
      ensures r.Ok? ==> id in old(Abs()).rows && Abs() == old(Abs()).Apply(DoDelete(id, user))
      ensures r.Ok? ==> && Abs() == old(Abs()).(rows := old(Abs()).rows - {id}) && Abs().secret.Some? && Abs().unlocked
                        && (old(Abs()).rows[id].requiredGroup == "" ||
                            old(Abs()).rows[id].requiredGroup in user.groups)
      ensures r.Err? ==> Abs() == old(Abs()) ||
                         (f(2) == FailsLate && Abs() == old(Abs()).Apply(DoDelete(id, user)))
      ensures NoFaults(f) ==>
                (r.Ok? <==> && old(Abs()).secret.Some? && old(Abs()).unlocked && id in old(Abs()).rows
                            && (old(Abs()).rows[id].requiredGroup == "" ||
                                old(Abs()).rows[id].requiredGroup in user.groups))
    {
      var err := CheckUnlockedAndInitialized(f(0));
      if err.Some? {
        return Err(err.value);
      }
      if f(1) != Fine {
        return Err(Broken);
      }
      if id !in values {
        return Err(NotFound);
      }
      if !MayAccess(values[id].requiredGroup, user) {
        return Err(Forbidden);
      }
      if f(2) != Fails {
        assert Opened(values - {id}) == Opened(values) - {id};
        values := values - {id};
      }
      if f(2) != Fine {
        return Err(Broken);
      }
      return Ok(());
    }

    /** A server restart: the password is forgotten, and the database is opened if its file is there.
        A failure to open it fails the start. */
    method Restart(f: Faults)
      requires Valid()
      modifies this
      ensures Valid() && Abs() == old(Abs()).Apply(DoRestart) && Abs() == old(Abs()).(unlocked := false)
      ensures NoFaults(f) ==> running
    {
      pass, dbOpen, running := "", false, false;
      if f(0) != Fine {
        return;
      }
      if fileExists {
        if f(1) != Fine {
          return;
        }
        dbOpen := true;
      }
      running := true;
    }
  }

  /** The table in the clear. */
  ghost function Opened(values: map<int, Row<Sealed>>): map<int, Row<string>> {
    map id | id in values :: values[id].With(values[id].value.payload)
  }

  lemma OpenedUpdate(values: map<int, Row<Sealed>>, id: int, input: Input, enc: Sealed, user: User)
    requires enc.payload == input.value
    ensures Opened(values[id := Row(input.clientID, input.requiredGroup, input.key, enc, input.kind,
                                    user.name, user.name)]) ==
            Opened(values)[id := Inserted(input, user)]
    ensures id in values ==>
              Opened(values[id := Row(input.clientID, input.requiredGroup, input.key, enc, input.kind,
                                      values[id].createdBy, user.name)]) ==
              Opened(values)[id := Updated(Opened(values)[id], input, user)]
  {
  }

  /** `found` is some row with this key and client, if there is one. */
  ghost predicate IsHit(values: map<int, Row<Sealed>>, key: string, clientID: string, found: Option<int>) {
    match found
    case Some(id) => id in values && values[id].key == key && values[id].clientID == clientID
    case None => forall id :: id in values ==> !(values[id].key == key && values[id].clientID == clientID)
  }

  /** With unique keys, one hit decides whether the key is taken by another row. */
  lemma TakenIsFound(values: map<int, Row<Sealed>>, v: Plain, existingID: int, input: Input, found: Option<int>)
    requires v.Valid() && v.rows == Opened(values)
    requires IsHit(values, input.key, input.clientID, found)
    ensures v.Taken(existingID, input) <==> found.Some? && (existingID == 0 || found.value != existingID)
  {
    if found.Some? {
      var id := found.value;
      assert id in v.rows && v.rows[id].key == input.key && v.rows[id].clientID == input.clientID;
      assert forall a :: a in v.rows && v.rows[a].key == input.key && v.rows[a].clientID == input.clientID ==> a == id;
    } else {
      assert forall a :: a in v.rows ==> a in values;
    }
  }

  /** Storing keeps the keys unique by the check alone; the unique index of the table never fires. */
  lemma StoredIsValid(v: Plain, existingID: int, input: Input, user: User)
    requires v.Valid() && v.MayStore(existingID, input, user)
    ensures v.Stored(existingID, input, user).Valid()
  {
  }

  // ----- what any run keeps -----

  function RunAll(v: Plain, ops: seq<Op>): Plain {
    if ops == [] then v else RunAll(v, ops[..|ops| - 1]).Apply(ops[|ops| - 1])
  }

  lemma ApplyIsValid(v: Plain, op: Op)
    requires v.Valid()
    ensures v.Apply(op).Valid()
    ensures v.secret.Some? ==> v.Apply(op).secret == v.secret
  {
    if op.DoStore? && v.MayStore(op.existingID, op.input, op.user) {
      StoredIsValid(v, op.existingID, op.input, op.user);
    }
  }

  /** In every reachable state keys are unique, an open vault is initialised, and the password of Init
      stays the password. */
  lemma {:induction false} ReachableIsValid(ops: seq<Op>, k: nat)
    requires k <= |ops|
    ensures RunAll(NEW_VAULT, ops).Valid()
    ensures RunAll(NEW_VAULT, ops[..k]).secret.Some? ==>
              RunAll(NEW_VAULT, ops).secret == RunAll(NEW_VAULT, ops[..k]).secret
    decreases |ops|
  {
    if ops == [] {
    } else {
      var n := |ops| - 1;
      ReachableIsValid(ops[..n], if k < n then k else n);
      if k <= n {
        assert ops[..n][..k] == ops[..k];
      } else {
        assert ops[..k] == ops;
      }
      ApplyIsValid(RunAll(NEW_VAULT, ops[..n]), ops[n]);
    }
  }

  /** The operation succeeds in writing or removing row `id` of `v`. */
  predicate Touches(v: Plain, op: Op, id: int) {
    || (op.DoStore? && op.existingID == id && v.MayStore(id, op.input, op.user))
    || (op.DoDelete? && op.id == id && v.Open() && id in v.rows && MayAccess(v.rows[id].requiredGroup, op.user))
  }

  lemma UntouchedRow(v: Plain, op: Op, id: int)
    requires v.Valid() && id in v.rows && !Touches(v, op, id)
    ensures id in v.Apply(op).rows && v.Apply(op).rows[id] == v.rows[id]
  {
  }

  /** The k-th operation writes or removes row `id`. */
  predicate TouchesAt(v: Plain, ops: seq<Op>, k: nat, id: int)
    requires k < |ops|
  {
    Touches(RunAll(v, ops[..k]), ops[k], id)
  }

  lemma RunPrefix(v: Plain, ops: seq<Op>, k: nat)
    requires k < |ops|
    ensures RunAll(v, ops[..k + 1]) == RunAll(v, ops[..k]).Apply(ops[k])
  {
    assert ops[..k + 1][..k] == ops[..k];
  }

  /** A stored value is read back unchanged until the next Store or Delete of its row that succeeds, across
      any number of locks, unlocks and restarts. */
  lemma {:induction false} LastStoreIsRead(v: Plain, id: int, ops: seq<Op>, n: nat)
    requires v.Valid() && id in v.rows && n <= |ops| && forall k :: 0 <= k < n ==> !TouchesAt(v, ops, k, id)
    ensures RunAll(v, ops[..n]).Valid()
    ensures id in RunAll(v, ops[..n]).rows && RunAll(v, ops[..n]).rows[id] == v.rows[id]
    decreases n
  {
    if n == 0 {
    } else {
      LastStoreIsRead(v, id, ops, n - 1);
      assert !TouchesAt(v, ops, n - 1, id);
      RunPrefix(v, ops, n - 1);
      ApplyIsValid(RunAll(v, ops[..n - 1]), ops[n - 1]);
      UntouchedRow(RunAll(v, ops[..n - 1]), ops[n - 1], id);
    }
  }
}
