/**
 * The todo service: role and ownership rules over a table of todos.
 * Each service method loads a row, changes it in place and writes it back,
 * so the service is a class whose table is a map from id to row.
 */
module Todo {
  import opened Common

  /** A row of the `todo` table (timestamps are not modelled). */
  datatype TodoEntity = TodoEntity(
    id: int,
    title: string,
    description: Option<string>,
    isClosed: bool,
    version: int,
    createdById: int,
    updatedById: int)

  /** Request bodies; an absent optional property is `None`. */
  datatype CreateTodoDto = CreateTodoDto(title: string, description: Option<string>)
  datatype UpdateTodoDto = UpdateTodoDto(title: Option<string>, description: Option<string>, isClosed: Option<bool>)
  datatype UpdateTodoAdminDto = UpdateTodoAdminDto(isClosed: bool)
  datatype ReplaceTodoDto = ReplaceTodoDto(
    id: int, version: int, title: Option<string>, description: Option<string>, isClosed: Option<bool>)

  /** `Object.assign(todo, updateDto)`: the properties present in the payload overwrite the row's. */
  function AssignUpdate(t: TodoEntity, dto: UpdateTodoDto): (r: TodoEntity)
    ensures r.(title := t.title, description := t.description, isClosed := t.isClosed) == t
  {
    t.(title := dto.title.GetOr(t.title),
       description := if dto.description.Some? then Some(dto.description.value) else t.description,
       isClosed := dto.isClosed.GetOr(t.isClosed))
  }

  /** `Object.assign(todo, replaceDto)`: also copies the payload's `id` and `version`. */
  function AssignReplace(t: TodoEntity, dto: ReplaceTodoDto): (r: TodoEntity)
    ensures r.id == dto.id && r.version == dto.version
    ensures r.createdById == t.createdById && r.updatedById == t.updatedById
  {
    t.(id := dto.id,
       version := dto.version,
       title := dto.title.GetOr(t.title),
       description := if dto.description.Some? then Some(dto.description.value) else t.description,
       isClosed := dto.isClosed.GetOr(t.isClosed))
  }

  /** Whether `findAll` lists the row: all rows for an admin, the caller's open rows otherwise. */
  predicate Listed(t: TodoEntity, userId: int, isAdmin: bool) {
    isAdmin || (t.createdById == userId && !t.isClosed)
  }

  /** Whether `update` lets the caller through: admins always, owners unless they reopen. */
  predicate UpdateAllowed(t: TodoEntity, userId: int, isAdmin: bool, dto: UpdateTodoDto) {
    isAdmin || (t.createdById == userId && !(dto.isClosed == Some(false) && t.isClosed))
  }

  /** The version stored under key `k`, if any. */
  function VersionAt(table: map<int, TodoEntity>, k: int): Option<int> {
    if k in table then Some(table[k].version) else None
  }

  /** Closing is one-way for users: a permitted non-admin update of a closed todo leaves it closed. */
  lemma UsersCannotReopen(t: TodoEntity, userId: int, dto: UpdateTodoDto)
    requires t.isClosed && UpdateAllowed(t, userId, false, dto)
    ensures AssignUpdate(t, dto).isClosed
  {
  }

  /** An admin may reopen any todo, owned or not. */
  lemma AdminMayReopen(t: TodoEntity, userId: int, dto: UpdateTodoDto)
    requires dto.isClosed == Some(false)
    ensures UpdateAllowed(t, userId, true, dto) && !AssignUpdate(t, dto).isClosed
  {
  }

  /** Applying the same partial update twice is the same as applying it once. */
  lemma AssignUpdateIdempotent(t: TodoEntity, dto: UpdateTodoDto)
    ensures AssignUpdate(AssignUpdate(t, dto), dto) == AssignUpdate(t, dto)
  {
  }

  class TodoService {
    var table: map<int, TodoEntity>
    /** The id the store hands out to the next inserted row. */
    var nextId: int
    const versions: VersionColumn

    /** Every row is stored under its own id, and ids handed out later are fresh. */
    ghost predicate Valid()
      reads this
    {
      forall k :: k in table ==> table[k].id == k && k < nextId
    }

    constructor (versions: VersionColumn)
      ensures Valid() && table == map[] && nextId == 1
      ensures this.versions == versions
    {
      this.versions := versions;
      table := map[];
      nextId := 1;
    }

    /** `todoRepo.save` of a row that has an id: written under that id with a stamped version. */
    method Save(t: TodoEntity) returns (saved: TodoEntity)
      requires Valid()
      modifies this
      ensures Valid()
      ensures saved == t.(version := Stamped(versions, VersionAt(old(table), t.id), t.version))
      ensures table == old(table)[t.id := saved]
      ensures nextId == Max(old(nextId), t.id + 1)
    {
      saved := t.(version := Stamped(versions, VersionAt(table, t.id), t.version));
      table := table[t.id := saved];
      nextId := Max(nextId, t.id + 1);
    }

    /** `todoRepo.save` of a new row, which carries no version: the store assigns the next id and the initial version. */
    method Insert(t: TodoEntity) returns (saved: TodoEntity)
      requires Valid()
      modifies this
      ensures Valid()
      ensures old(nextId) !in old(table)
      ensures saved == t.(id := old(nextId), version := versions.initial)
      ensures table == old(table)[saved.id := saved] && nextId == old(nextId) + 1
    {
      saved := Save(t.(id := nextId, version := versions.initial));
    }

    method Create(userId: int, dto: CreateTodoDto) returns (r: TodoEntity)
      requires Valid()
      modifies this
      ensures Valid()
      ensures r == TodoEntity(old(nextId), dto.title, dto.description, false, versions.initial, userId, userId)
      ensures old(nextId) !in old(table) && table == old(table)[r.id := r]
    {
      var todo := TodoEntity(0, dto.title, dto.description, false, 0, userId, userId);
      r := Insert(todo);
    }

    method FindAll(userId: int, isAdmin: bool) returns (r: map<int, TodoEntity>)
      ensures forall k :: k in r <==> k in table && Listed(table[k], userId, isAdmin)
      ensures forall k :: k in r ==> r[k] == table[k]
    {
      if isAdmin {
        r := table;
      } else {
        r := map k | k in table && table[k].createdById == userId && !table[k].isClosed :: table[k];
      }
    }

    method FindOne(id: int, userId: int, isAdmin: bool) returns (r: Result<TodoEntity>)
      ensures r.Ok? <==> id in table && Listed(table[id], userId, isAdmin)
      ensures r.Ok? ==> r.value == table[id]
      ensures id !in table ==> r == Err(NotFound)
      ensures id in table && !isAdmin && table[id].createdById != userId ==> r == Err(Forbidden)
      ensures id in table && !isAdmin && table[id].createdById == userId && table[id].isClosed ==> r == Err(NotFound)
    {
      if id !in table {
        return Err(NotFound);
      }
      var todo := table[id];
      if isAdmin {
        return Ok(todo);
      }
      if todo.createdById != userId {
        return Err(Forbidden);
      }
      if todo.isClosed {
        return Err(NotFound);
      }
      r := Ok(todo);
    }

    method Update(id: int, userId: int, isAdmin: bool, dto: UpdateTodoDto) returns (r: Result<TodoEntity>)
      requires Valid()
      modifies this
      ensures Valid() && nextId == old(nextId)
      ensures id !in old(table) ==> r == Err(NotFound)
      ensures id in old(table) && !isAdmin && old(table)[id].createdById != userId ==> r == Err(Forbidden)
      ensures id in old(table) && !isAdmin && dto.isClosed == Some(false) && old(table)[id].isClosed ==> r == Err(Forbidden)
      ensures r.Ok? <==> id in old(table) && UpdateAllowed(old(table)[id], userId, isAdmin, dto)
      ensures r.Err? ==> table == old(table)
      ensures r.Ok? ==> r.value == AssignUpdate(old(table)[id], dto).(updatedById := userId, version := versions.bump(old(table)[id].version))
      ensures r.Ok? ==> table == old(table)[id := r.value]
    {
      if id !in table {
        return Err(NotFound);
      }
      var todo := table[id];
      if !isAdmin {
        if todo.createdById != userId {
          return Err(Forbidden);
        }
        if dto.isClosed == Some(false) && todo.isClosed {
          return Err(Forbidden);
        }
      }
      todo := AssignUpdate(todo, dto);
      todo := todo.(updatedById := userId);
      var saved := Save(todo);
      r := Ok(saved);
    }

    method UpdateAdmin(id: int, dto: UpdateTodoAdminDto) returns (r: Result<TodoEntity>)
      requires Valid()
      modifies this
      ensures Valid() && nextId == old(nextId)
      ensures id !in old(table) ==> r == Err(NotFound) && table == old(table)
      ensures id in old(table) ==> r == Ok(old(table)[id].(isClosed := dto.isClosed, version := versions.bump(old(table)[id].version)))
      ensures id in old(table) ==> table == old(table)[id := r.value]
    {
      if id !in table {
        return Err(NotFound);
      }
      var todo := table[id];
      todo := todo.(isClosed := dto.isClosed);
      var saved := Save(todo);
      r := Ok(saved);
    }

    method Replace(id: int, dto: ReplaceTodoDto) returns (r: Result<TodoEntity>)
      requires Valid()
      modifies this
      ensures Valid()
      ensures id !in old(table) ==> r == Err(NotFound) && table == old(table) && nextId == old(nextId)
      ensures id in old(table) ==> r == Ok(AssignReplace(old(table)[id], dto).(version := Stamped(versions, VersionAt(old(table), dto.id), dto.version)))
      ensures id in old(table) && VersionAt(old(table), dto.id) != Some(dto.version) ==> r.value.version == dto.version
      ensures id in old(table) && VersionAt(old(table), dto.id) == Some(dto.version) ==> r.value.version == versions.bump(dto.version)
      ensures id in old(table) ==> table == old(table)[dto.id := r.value] && nextId == Max(old(nextId), dto.id + 1)
    {
      if id !in table {
        return Err(NotFound);
      }
      var todo := table[id];
      todo := AssignReplace(todo, dto);
      var saved := Save(todo);
      r := Ok(saved);
    }

    /** `todoRepo.remove`: the row leaves the table. */
    method Delete(t: TodoEntity)
      requires Valid()
      modifies this
      ensures Valid() && nextId == old(nextId)
      ensures table == old(table) - {t.id}
    {
      table := table - {t.id};
    }

    method Remove(id: int, isAdmin: bool, userId: int) returns (r: Result<TodoEntity>)
      requires Valid()
      modifies this
      ensures Valid() && nextId == old(nextId)
      ensures !isAdmin ==> r == Err(Forbidden)
      ensures isAdmin && id !in old(table) ==> r == Err(NotFound)
      ensures r.Err? ==> table == old(table)
      ensures isAdmin && id in old(table) ==> r == Ok(old(table)[id].(updatedById := userId))
      ensures isAdmin && id in old(table) ==> table == old(table) - {id}
    {
      if !isAdmin {
        return Err(Forbidden);
      }
      if id !in table {
        return Err(NotFound);
      }
      var todo := table[id];
      Delete(todo);
      r := Ok(todo.(updatedById := userId));
    }
  }

  /**
   * A closed todo disappears for its owner but stays visible to an admin,
   * and the owner cannot reopen it.
   */
  method ClosedTodoScenario(versions: VersionColumn)
  {
    var service := new TodoService(versions);
    var owner, admin := 2, 1;
    var created := service.Create(owner, CreateTodoDto("Einkaufen gehen", None));
    var id := created.id;
    var seen := service.FindOne(id, owner, false);
    assert seen == Ok(created);
    var closed := service.Update(id, owner, false, UpdateTodoDto(None, None, Some(true)));
    assert closed.Ok? && closed.value.isClosed;
    var hidden := service.FindOne(id, owner, false);
    assert hidden == Err(NotFound);
    var listed := service.FindAll(owner, false);
    assert id !in listed;
    var reopen := service.Update(id, owner, false, UpdateTodoDto(None, None, Some(false)));
    assert reopen == Err(Forbidden);
    var adminView := service.FindOne(id, admin, true);
    assert adminView.Ok? && adminView.value.isClosed;
    var byOwner := service.Remove(id, false, owner);
    assert byOwner == Err(Forbidden);
    var byAdmin := service.Remove(id, true, admin);
    assert byAdmin.Ok?;
    var gone := service.FindOne(id, admin, true);
    assert gone == Err(NotFound);
  }
}
