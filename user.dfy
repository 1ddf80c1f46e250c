/**
 * The user service: user rows with a unique username column, and the
 * `ReturnUserDto` projection that every read hands out.
 */
module User {
  import opened Common

  /** A row of the `user` table (timestamps are not modelled). `version` is a plain column here. */
  datatype UserEntity = UserEntity(
    id: int,
    username: string,
    email: string,
    passwordHash: string,
    isAdmin: bool,
    version: int,
    createdById: Option<int>,
    updatedById: Option<int>)

  datatype CreateUserDto = CreateUserDto(username: string, email: string, password: string)
  datatype UpdateUserAdminDto = UpdateUserAdminDto(isAdmin: Option<bool>)

  /** What the service returns for a user: every modelled column except `passwordHash`. */
  datatype ReturnUserDto = ReturnUserDto(
    id: int,
    username: string,
    email: string,
    isAdmin: bool,
    version: int,
    createdById: Option<int>,
    updatedById: Option<int>)

  /** `new ReturnUserDto(user)`. */
  function ToReturnUserDto(u: UserEntity): (d: ReturnUserDto)
  {
    ReturnUserDto(u.id, u.username, u.email, u.isAdmin, u.version, u.createdById, u.updatedById)
  }

  /** The projection cannot reveal anything about the password hash. */
  lemma ProjectionHidesHash(u: UserEntity, otherHash: string)
    ensures ToReturnUserDto(u.(passwordHash := otherHash)) == ToReturnUserDto(u)
  {
  }

  /** Two rows with the same projection differ at most in their password hash. */
  lemma ProjectionDeterminesAllButHash(u: UserEntity, w: UserEntity)
    requires ToReturnUserDto(u) == ToReturnUserDto(w)
    ensures u == w.(passwordHash := u.passwordHash)
  {
  }

  /** The column default of `version` for a new user. */
  const InitialUserVersion := 1

  /** Whether the unique `username` column already holds `name`. */
  predicate UsernameTaken(table: map<int, UserEntity>, name: string) {
    exists k :: k in table && table[k].username == name
  }

  class UserService {
    var table: map<int, UserEntity>
    var nextId: int
    /** The argon2 hash of the password service, left uninterpreted. */
    const hashPassword: string -> string
    /** JavaScript's `String.prototype.toLowerCase`, left uninterpreted. */
    const toLowerCase: string -> string

    /** Rows are stored under their ids, future ids are fresh, and usernames are unique. */
    ghost predicate Valid()
      reads this
    {
      && (forall k :: k in table ==> table[k].id == k && k < nextId)
      && (forall j, k :: j in table && k in table && table[j].username == table[k].username ==> j == k)
    }

    constructor (hashPassword: string -> string, toLowerCase: string -> string)
      ensures Valid() && table == map[] && nextId == 1
      ensures this.hashPassword == hashPassword && this.toLowerCase == toLowerCase
    {
      this.hashPassword := hashPassword;
      this.toLowerCase := toLowerCase;
      table := map[];
      nextId := 1;
    }

    /**
     * `storeFault` stands for any failure of the insert other than the
     * unique-constraint violation (the database is not modelled).
     */
    method Create(dto: CreateUserDto, storeFault: bool) returns (r: Result<ReturnUserDto>)
      requires Valid()
      modifies this
      ensures Valid()
      ensures UsernameTaken(old(table), toLowerCase(dto.username)) ==> r == Err(Conflict)
      ensures !UsernameTaken(old(table), toLowerCase(dto.username)) && storeFault ==> r == Err(InternalError)
      ensures r.Err? ==> table == old(table) && nextId == old(nextId)
      ensures r.Ok? <==> !UsernameTaken(old(table), toLowerCase(dto.username)) && !storeFault
      ensures r.Ok? ==> r.value == ReturnUserDto(old(nextId), toLowerCase(dto.username), dto.email, false,
                                                 InitialUserVersion, None, None)
      ensures r.Ok? ==> old(nextId) !in old(table) && nextId == old(nextId) + 1
      ensures r.Ok? ==> table == old(table)[old(nextId) := UserEntity(old(nextId), toLowerCase(dto.username), dto.email,
                                                                      hashPassword(dto.password), false,
                                                                      InitialUserVersion, None, None)]
    {
      var passwordHash := hashPassword(dto.password);
      var user := UserEntity(0, toLowerCase(dto.username), dto.email, passwordHash, false,
                             InitialUserVersion, None, None);
      // the insert fails on the unique username column before anything else
      if exists k :: k in table && table[k].username == user.username {
        return Err(Conflict);
      }
      if storeFault {
        return Err(InternalError);
      }
      var saved := user.(id := nextId);
      table := table[saved.id := saved];
      nextId := nextId + 1;
      r := Ok(ToReturnUserDto(saved));
    }

    method FindAll() returns (r: map<int, ReturnUserDto>)
      ensures r.Keys == table.Keys
      ensures forall k :: k in r ==> r[k] == ToReturnUserDto(table[k])
    {
      r := map k | k in table :: ToReturnUserDto(table[k]);
    }

    /** A miss is `None` (the source's `null`), not an error. */
    method FindOne(id: int) returns (r: Option<ReturnUserDto>)
      ensures id !in table ==> r == None
      ensures id in table ==> r == Some(ToReturnUserDto(table[id]))
    {
      if id !in table {
        return None;
      }
      r := Some(ToReturnUserDto(table[id]));
    }

    /** Exact match on the stored username (no lowercasing); a miss is `None`. */
    method FindByUsername(username: string) returns (r: Option<UserEntity>)
      requires Valid()
      ensures r.None? <==> !UsernameTaken(table, username)
      ensures forall k :: k in table && table[k].username == username ==> r == Some(table[k])
    {
      if exists k :: k in table && table[k].username == username {
        var k :| k in table && table[k].username == username;
        r := Some(table[k]);
      } else {
        r := None;
      }
    }

    method Update(id: int, dto: UpdateUserAdminDto) returns (r: Result<ReturnUserDto>)
      requires Valid()
      modifies this
      ensures Valid() && nextId == old(nextId)
      ensures id !in old(table) ==> r == Err(NotFound) && table == old(table)
      ensures id in old(table) ==> table == old(table)[id := old(table)[id].(isAdmin := dto.isAdmin.GetOr(old(table)[id].isAdmin))]
      ensures id in old(table) ==> r == Ok(ToReturnUserDto(table[id]))
    {
      if id !in table {
        return Err(NotFound);
      }
      var user := table[id];
      if dto.isAdmin.Some? {
        user := user.(isAdmin := dto.isAdmin.value);
      }
      table := table[id := user];
      r := Ok(ToReturnUserDto(user));
    }

    method Remove(id: int) returns (r: Result<ReturnUserDto>)
      requires Valid()
      modifies this
      ensures Valid() && nextId == old(nextId)
      ensures id !in old(table) ==> r == Err(NotFound) && table == old(table)
      ensures id in old(table) ==> r == Ok(ToReturnUserDto(old(table)[id])) && table == old(table) - {id}
    {
      if id !in table {
        return Err(NotFound);
      }
      var user := table[id];
      table := table - {id};
      r := Ok(ToReturnUserDto(user));
    }
  }

  /** Registering the same name twice, in any letter case, conflicts the second time. */
  method DuplicateRegistrationScenario(hash: string -> string, lower: string -> string, dto: CreateUserDto, again: CreateUserDto)
    requires lower(again.username) == lower(dto.username)
  {
    var service := new UserService(hash, lower);
    var first := service.Create(dto, false);
    assert first.Ok? && !first.value.isAdmin;
    var second := service.Create(again, false);
    assert second == Err(Conflict);
    var found := service.FindByUsername(lower(dto.username));
    assert found.Some? && found.value.passwordHash == hash(dto.password);
  }
}
