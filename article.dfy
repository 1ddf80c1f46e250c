/**
 * The article service: plain CRUD with an optimistic-concurrency check on
 * replace. No operation looks at the caller's role or at ownership; the
 * caller's id only ends up in `createdById`/`updatedById`.
 */
module Article {
  import opened Common

  /** `articlePrice` is a numeric column; the model carries it without interpreting it. */
  type Price(==)

  /** A row of the `article` table (timestamps are not modelled). */
  datatype ArticleEntity = ArticleEntity(
    id: int,
    articleName: string,
    articleDescription: string,
    articlePrice: Price,
    version: int,
    createdById: int,
    updatedById: int)

  datatype CreateArticleDto = CreateArticleDto(articleName: string, articleDescription: string, articlePrice: Price)
  datatype ReplaceArticleDto = ReplaceArticleDto(
    id: int, articleName: string, articleDescription: string, articlePrice: Price, version: int)
  datatype UpdateArticleDto = UpdateArticleDto(
    articleName: Option<string>, articleDescription: Option<string>, articlePrice: Option<Price>)

  datatype ReturnArticleDto = ReturnArticleDto(
    id: int,
    articleName: string,
    articleDescription: string,
    articlePrice: Price,
    version: int,
    createdById: int,
    updatedById: int)

  /** The projection every service method returns. */
  function EntityToDto(e: ArticleEntity): (d: ReturnArticleDto)
  {
    ReturnArticleDto(e.id, e.articleName, e.articleDescription, e.articlePrice, e.version, e.createdById, e.updatedById)
  }

  /** Reads a returned article back as a row: the inverse of the projection. */
  function DtoToEntity(d: ReturnArticleDto): ArticleEntity {
    ArticleEntity(d.id, d.articleName, d.articleDescription, d.articlePrice, d.version, d.createdById, d.updatedById)
  }

  /** The projection loses nothing: every modelled field comes back unchanged. */
  lemma EntityToDtoRoundTrip(e: ArticleEntity)
    ensures DtoToEntity(EntityToDto(e)) == e
  {
  }

  /** `{ ...existing, ...replaceDto, updatedById: userId, id }`. */
  function MergeReplace(existing: ArticleEntity, dto: ReplaceArticleDto, userId: int, id: int): (r: ArticleEntity)
    ensures r.id == id && r.updatedById == userId && r.createdById == existing.createdById
    ensures r.version == dto.version
  {
    existing.(id := dto.id, articleName := dto.articleName, articleDescription := dto.articleDescription,
              articlePrice := dto.articlePrice, version := dto.version)
            .(updatedById := userId, id := id)
  }

  /** `{ ...existing, ...updateDto, updatedById: userId, id }`: absent payload fields are kept. */
  function MergeUpdate(existing: ArticleEntity, dto: UpdateArticleDto, userId: int, id: int): (r: ArticleEntity)
    ensures r.id == id && r.updatedById == userId
    ensures r.createdById == existing.createdById && r.version == existing.version
  {
    existing.(articleName := dto.articleName.GetOr(existing.articleName),
              articleDescription := dto.articleDescription.GetOr(existing.articleDescription),
              articlePrice := dto.articlePrice.GetOr(existing.articlePrice))
            .(updatedById := userId, id := id)
  }

  /**
   * The concurrency guard of `replace`, in source order: the stored version
   * must equal the payload's, then the payload's id the stored id.
   */
  function ReplaceConflict(existing: ArticleEntity, dto: ReplaceArticleDto): (c: bool)
  {
    existing.version != dto.version || existing.id != dto.id
  }

  /**
   * A replace that passes the guard and is merged into the row it read
   * differs from that row only in the payload's fields and `updatedById`.
   */
  lemma ReplaceKeepsIdentity(existing: ArticleEntity, dto: ReplaceArticleDto, userId: int)
    requires !ReplaceConflict(existing, dto)
    ensures MergeReplace(existing, dto, userId, existing.id)
         == ArticleEntity(existing.id, dto.articleName, dto.articleDescription, dto.articlePrice,
                          existing.version, existing.createdById, userId)
  {
  }

  /**
   * Once a replace has gone through, the same payload conflicts with the row
   * it wrote, as long as the store never stamps a version onto itself.
   */
  lemma ReplayedReplaceConflicts(existing: ArticleEntity, dto: ReplaceArticleDto, userId: int, vc: VersionColumn)
    requires !ReplaceConflict(existing, dto)
    requires forall v :: vc.bump(v) != v
    ensures ReplaceConflict(MergeReplace(existing, dto, userId, existing.id).(version := Stamped(vc, Some(existing.version), dto.version)), dto)
  {
    assert Stamped(vc, Some(existing.version), dto.version) == vc.bump(dto.version);
  }

  class ArticleService {
    var table: map<int, ArticleEntity>
    var nextId: int
    const versions: VersionColumn

    ghost predicate Valid()
      reads this
    {
      forall k :: k in table ==> table[k].id == k && k < nextId
    }

    constructor (versions: VersionColumn)
      ensures Valid() && table == map[] && nextId == 1
      ensures this.versions == versions
    {
      this.versions := versions;
      table := map[];
      nextId := 1;
    }

    /** `repo.save` of a stored row: written back under its id with a stamped version. */
    method Save(e: ArticleEntity) returns (saved: ArticleEntity)
      requires Valid() && e.id in table
      modifies this
      ensures Valid() && nextId == old(nextId)
      ensures saved == e.(version := Stamped(versions, Some(old(table)[e.id].version), e.version))
      ensures table == old(table)[e.id := saved]
    {
      saved := e.(version := Stamped(versions, Some(table[e.id].version), e.version));
      table := table[e.id := saved];
    }

    method Create(userId: int, dto: CreateArticleDto) returns (r: ReturnArticleDto)
      requires Valid()
      modifies this
      ensures Valid() && nextId == old(nextId) + 1 && old(nextId) !in old(table)
      ensures r == ReturnArticleDto(old(nextId), dto.articleName, dto.articleDescription, dto.articlePrice,
                                    versions.initial, userId, userId)
      ensures table == old(table)[r.id := DtoToEntity(r)]
    {
      var entity := ArticleEntity(0, dto.articleName, dto.articleDescription, dto.articlePrice, 0, 0, 0);
      entity := entity.(createdById := userId);
      entity := entity.(updatedById := userId);
      var saved := entity.(id := nextId, version := versions.initial);
      table := table[saved.id := saved];
      nextId := nextId + 1;
      r := EntityToDto(saved);
    }

    method FindAll() returns (r: map<int, ReturnArticleDto>)
      ensures r.Keys == table.Keys
      ensures forall k :: k in r ==> r[k] == EntityToDto(table[k])
    {
      r := map k | k in table :: EntityToDto(table[k]);
    }

    method FindOne(id: int) returns (r: Result<ReturnArticleDto>)
      ensures id !in table ==> r == Err(NotFound)
      ensures id in table ==> r == Ok(EntityToDto(table[id]))
    {
      if id !in table {
        return Err(NotFound);
      }
      r := Ok(EntityToDto(table[id]));
    }

    method Replace(userId: int, id: int, dto: ReplaceArticleDto) returns (r: Result<ReturnArticleDto>)
      requires Valid()
      modifies this
      ensures Valid() && nextId == old(nextId)
      ensures id !in old(table) ==> r == Err(NotFound)
      ensures id in old(table) && old(table)[id].version != dto.version ==> r == Err(Conflict)
      ensures id in old(table) && dto.id != id ==> r == Err(Conflict)
      ensures r.Ok? <==> id in old(table) && !ReplaceConflict(old(table)[id], dto)
      ensures r.Err? ==> table == old(table)
      ensures r.Ok? ==> table == old(table)[id := MergeReplace(old(table)[id], dto, userId, id).(version := versions.bump(dto.version))]
      ensures r.Ok? ==> r.value == EntityToDto(table[id])
    {
      if id !in table {
        return Err(NotFound);
      }
      var existing := table[id];
      if existing.version != dto.version {
        return Err(Conflict);
      }
      if existing.id != dto.id {
        return Err(Conflict);
      }
      var saved := Save(MergeReplace(existing, dto, userId, id));
      r := Ok(EntityToDto(saved));
    }

    method Update(userId: int, id: int, dto: UpdateArticleDto) returns (r: Result<ReturnArticleDto>)
      requires Valid()
      modifies this
      ensures Valid() && nextId == old(nextId)
      ensures id !in old(table) ==> r == Err(NotFound) && table == old(table)
      ensures id in old(table) ==> table == old(table)[id := MergeUpdate(old(table)[id], dto, userId, id).(version := versions.bump(old(table)[id].version))]
      ensures id in old(table) ==> r == Ok(EntityToDto(table[id]))
    {
      if id !in table {
        return Err(NotFound);
      }
      var existing := table[id];
      var saved := Save(MergeUpdate(existing, dto, userId, id));
      r := Ok(EntityToDto(saved));
    }

    method Remove(id: int) returns (r: Result<ReturnArticleDto>)
      requires Valid()
      modifies this
      ensures Valid() && nextId == old(nextId)
      ensures id !in old(table) ==> r == Err(NotFound) && table == old(table)
      ensures id in old(table) ==> r == Ok(EntityToDto(old(table)[id])) && table == old(table) - {id}
    {
      if id !in table {
        return Err(NotFound);
      }
      var existing := table[id];
      table := table - {existing.id};
      r := Ok(EntityToDto(existing));
    }
  }

  /**
   * Two clients read the same article; the first replace wins and the
   * second, still carrying the version it read, is rejected. A removed
   * article is then no longer found.
   */
  method LostUpdateScenario(userA: int, userB: int, dto: CreateArticleDto, name: string)
  {
    var service := new ArticleService(VersionColumn(1, v => v + 1));
    var created := service.Create(userA, dto);
    var id := created.id;
    var readA := service.FindOne(id);
    var readB := service.FindOne(id);
    assert readA == readB == Ok(created) && created.version == 1;
    var first := service.Replace(userA, id, ReplaceArticleDto(id, name, dto.articleDescription, dto.articlePrice, 1));
    assert first.Ok? && first.value.version == 2 && first.value.createdById == userA;
    var second := service.Replace(userB, id, ReplaceArticleDto(id, name, dto.articleDescription, dto.articlePrice, 1));
    assert second == Err(Conflict);
    var removed := service.Remove(id);
    assert removed.Ok?;
    var after := service.FindOne(id);
    assert after == Err(NotFound);
  }

  /**
   * The same replace sent twice: if the first one is applied, the second is
   * rejected as a conflict and leaves the table as the first one left it.
   */
  method ReplayedReplace(service: ArticleService, userId: int, id: int, dto: ReplaceArticleDto)
    returns (first: Result<ReturnArticleDto>, second: Result<ReturnArticleDto>)
    requires service.Valid()
    requires forall v :: service.versions.bump(v) != v
    modifies service
    ensures service.Valid()
    ensures first.Ok? ==> second == Err(Conflict)
    ensures first.Ok? ==> service.table == old(service.table)[id := DtoToEntity(first.value)]
    ensures first.Err? ==> second == first && service.table == old(service.table)
  {
    first := service.Replace(userId, id, dto);
    second := service.Replace(userId, id, dto);
    if first.Ok? {
      EntityToDtoRoundTrip(old(service.table)[id := DtoToEntity(first.value)][id]);
    }
  }
}
